/** The allocator of section 8.7 of The C Programming Language: a circular, address-ordered
    free list threaded through block headers, with merging of neighbours. */
module Umalloc {
  // Sizes count headers of eight bytes, addresses count bytes.

  import opened Blocks

  /** A block: the address of its header and its size in units, header included. */
  datatype Blk = Blk(at: int, units: int) {
    function End(): int { at + 8 * units }
    predicate Has(x: int) { at <= x < End() }
  }

  // ----- the free list as a sequence of blocks -----

  /** Sizes are positive but for the base's, and each block ends before the next begins. */
  predicate Ordered(bs: seq<Blk>) {
    && Sized(bs) && forall i {:trigger Next(bs, i)} | 0 <= i < |bs| - 1 :: bs[i].End() < Next(bs, i).at
  }

  /** The same, but blocks may touch. */
  predicate Loose(bs: seq<Blk>) {
    && Sized(bs) && forall i {:trigger Next(bs, i)} | 0 <= i < |bs| - 1 :: bs[i].End() <= Next(bs, i).at
  }

  predicate Sized(bs: seq<Blk>) {
    |bs| > 0 && bs[0].units == 0 && forall i | 0 < i < |bs| :: bs[i].units > 0
  }

  function Next(bs: seq<Blk>, i: nat): Blk
    requires i + 1 < |bs|
  {
    bs[i + 1]
  }

  predicate Covers(bs: seq<Blk>, x: int) {
    exists i :: 0 <= i < |bs| && bs[i].Has(x)
  }

  /** Blocks further apart in the list are further apart in memory. */
  lemma {:induction false} OrderedApart(bs: seq<Blk>, i: nat, j: nat)
    requires Ordered(bs) && i < j < |bs|
    ensures bs[i].End() < bs[j].at && bs[i].at < bs[j].at
    decreases j - i
  {
    assert Next(bs, i) == bs[i + 1];
    if i + 1 < j {
      OrderedApart(bs, i + 1, j);
    }
  }

  predicate Apart(b: Blk, c: Blk) {
    b.End() <= c.at || c.End() <= b.at
  }

  function Insert(bs: seq<Blk>, i: nat, b: Blk): (cs: seq<Blk>)
    requires i < |bs|
    ensures |cs| == |bs| + 1 && cs[i + 1] == b
    ensures forall k | 0 <= k <= i :: cs[k] == bs[k]
    ensures forall k | i + 1 < k <= |bs| :: cs[k] == bs[k - 1]
  {
    seq(|bs| + 1, k requires 0 <= k <= |bs| => if k <= i then bs[k] else if k == i + 1 then b else bs[k - 1])
  }

  /** Blocks i and i + 1 made one if they touch. */
  function Merge(bs: seq<Blk>, i: nat): (cs: seq<Blk>)
    requires i < |bs|
  {
    if i + 1 < |bs| && bs[i].End() == bs[i + 1].at then Joined(bs, i) else bs
  }

  function Joined(bs: seq<Blk>, i: nat): (cs: seq<Blk>)
    requires i + 1 < |bs|
    ensures |cs| == |bs| - 1 && cs[i] == Blk(bs[i].at, bs[i].units + bs[i + 1].units)
    ensures forall k | 0 <= k < i :: cs[k] == bs[k]
    ensures forall k | i < k < |cs| :: cs[k] == bs[k + 1]
  {
    seq(|bs| - 1, k requires 0 <= k < |bs| - 1 =>
      if k < i then bs[k]
      else if k == i then Blk(bs[i].at, bs[i].units + bs[i + 1].units)
      else bs[k + 1])
  }

  /** free's effect on the list: b behind position i, merged with its neighbours where they touch. */
  function FreeInto(bs: seq<Blk>, i: nat, b: Blk): seq<Blk>
    requires i < |bs|
  {
    Merge(Merge(Insert(bs, i, b), i + 1), i)
  }

  /** b lies in the gap behind position i. */
  predicate Gap(bs: seq<Blk>, i: nat, b: Blk) {
    && i < |bs| && b.units > 0 && bs[i].End() <= b.at && (i == 0 ==> bs[0].End() < b.at)
    && (i + 1 < |bs| ==> b.End() <= bs[i + 1].at)
  }

  /** In order, and touching at most at the positions from lo up to hi. */
  predicate TightBut(bs: seq<Blk>, lo: nat, hi: nat) {
    && Sized(bs)
    && forall i {:trigger Next(bs, i)} | 0 <= i < |bs| - 1 ::
         bs[i].End() <= Next(bs, i).at && (bs[i].End() == Next(bs, i).at ==> lo <= i < hi)
  }

  lemma InsertTight(bs: seq<Blk>, i: nat, b: Blk)
    requires Ordered(bs) && Gap(bs, i, b)
    ensures TightBut(Insert(bs, i, b), if i == 0 then 1 else i, i + 2) && Insert(bs, i, b)[0] == bs[0]
  {
    var cs := Insert(bs, i, b);
    forall k | 0 <= k < |cs| - 1
      ensures cs[k].End() <= Next(cs, k).at
      ensures (cs[k].End() == Next(cs, k).at ==> (if i == 0 then 1 else i) <= k < i + 2)
    {
      assert k < i ==> Next(bs, k) == Next(cs, k);
      assert k > i + 1 ==> Next(bs, k - 1) == Next(cs, k);
    }
  }

  lemma MergeTight(bs: seq<Blk>, lo: nat, i: nat)
    requires TightBut(bs, lo, i + 1) && 0 < lo <= i < |bs|
    ensures TightBut(Merge(bs, i), lo, i) && Merge(bs, i)[0] == bs[0]
  {
    var cs := Merge(bs, i);
    forall k | 0 <= k < |cs| - 1
      ensures cs[k].End() <= Next(cs, k).at && (cs[k].End() == Next(cs, k).at ==> lo <= k < i)
    {
      assert k < i ==> Next(bs, k).at == Next(cs, k).at;
      if k >= i && cs != bs {
        assert Next(bs, k + 1) == Next(cs, k) && Next(bs, i) == bs[i + 1];
      } else if k >= i {
        assert Next(bs, k) == Next(cs, k);
      }
    }
  }

  /** The list stays in order with nothing touching. */
  lemma FreeOrdered(bs: seq<Blk>, i: nat, b: Blk)
    requires Ordered(bs) && Gap(bs, i, b)
    ensures Ordered(FreeInto(bs, i, b)) && FreeInto(bs, i, b)[0] == bs[0]
  {
    var cs := Insert(bs, i, b);
    InsertTight(bs, i, b);
    MergeTight(cs, if i == 0 then 1 else i, i + 1);
    var ds := Merge(cs, i + 1);
    if i == 0 {
      assert Next(ds, 0) == ds[1];
    } else {
      MergeTight(ds, i, i);
    }
  }

  predicate NoNegative(bs: seq<Blk>) {
    forall k | 0 <= k < |bs| :: bs[k].units >= 0
  }

  lemma InsertCovers(bs: seq<Blk>, i: nat, b: Blk, x: int)
    requires i < |bs| && NoNegative(bs) && b.units >= 0
    ensures NoNegative(Insert(bs, i, b))
    ensures Covers(Insert(bs, i, b), x) <==> Covers(bs, x) || b.Has(x)
  {
    var cs := Insert(bs, i, b);
    if Covers(bs, x) {
      var k :| 0 <= k < |bs| && bs[k].Has(x);
      assert k <= i ==> cs[k].Has(x);
      assert k > i ==> cs[k + 1].Has(x);
    }
    if b.Has(x) {
      assert cs[i + 1].Has(x);
    }
  }

  lemma MergeCovers(bs: seq<Blk>, i: nat, x: int)
    requires i < |bs| && NoNegative(bs)
    ensures Covers(Merge(bs, i), x) <==> Covers(bs, x)
    ensures NoNegative(Merge(bs, i))
  {
    var cs := Merge(bs, i);
    if cs != bs {
      if Covers(bs, x) {
        var k :| 0 <= k < |bs| && bs[k].Has(x);
        assert if k < i then cs[k].Has(x) else if k <= i + 1 then cs[i].Has(x) else cs[k - 1].Has(x);
      }
      if Covers(cs, x) {
        var k :| 0 <= k < |cs| && cs[k].Has(x);
        assert if k < i then bs[k].Has(x) else if k > i then bs[k + 1].Has(x) else bs[i].Has(x) || bs[i + 1].Has(x);
      }
    }
  }

  /** Freeing makes exactly the block's bytes free. */
  lemma FreeCovers(bs: seq<Blk>, i: nat, b: Blk, x: int)
    requires Ordered(bs) && Gap(bs, i, b)
    ensures Covers(FreeInto(bs, i, b), x) <==> Covers(bs, x) || b.Has(x)
  {
    var cs := Insert(bs, i, b);
    InsertCovers(bs, i, b, x);
    MergeCovers(cs, i + 1, x);
    MergeCovers(Merge(cs, i + 1), i, x);
  }

  function Removed(bs: seq<Blk>, i: nat): (cs: seq<Blk>)
    requires i < |bs|
    ensures |cs| == |bs| - 1
    ensures forall k | 0 <= k < i :: cs[k] == bs[k]
    ensures forall k | i <= k < |cs| :: cs[k] == bs[k + 1]
  {
    seq(|bs| - 1, k requires 0 <= k < |bs| - 1 => if k < i then bs[k] else bs[k + 1])
  }

  /** n units taken from the end of block i, or all of it. */
  function TakeFrom(bs: seq<Blk>, i: nat, n: int): seq<Blk>
    requires i < |bs|
  {
    if bs[i].units == n then Removed(bs, i) else bs[i := Blk(bs[i].at, bs[i].units - n)]
  }

  function Taken(b: Blk, n: int): Blk {
    Blk(b.End() - 8 * n, n)
  }

  lemma TakeOrdered(bs: seq<Blk>, i: nat, n: int)
    requires Ordered(bs) && 0 < i < |bs| && 0 < n <= bs[i].units
    ensures Ordered(TakeFrom(bs, i, n)) && TakeFrom(bs, i, n)[0] == bs[0]
  {
    var cs := TakeFrom(bs, i, n);
    forall k | 0 <= k < |cs| - 1 ensures cs[k].End() < Next(cs, k).at {
      assert |cs| == |bs| || k < i - 1 ==> Next(bs, k).at == Next(cs, k).at;
      if |cs| < |bs| && k >= i {
        assert Next(bs, k + 1) == Next(cs, k);
      }
      if |cs| < |bs| && k == i - 1 {
        OrderedApart(bs, k, k + 2);
      }
    }
  }

  /** Taking makes exactly the taken bytes not free. */
  lemma TakeCovers(bs: seq<Blk>, i: nat, n: int, x: int)
    requires Ordered(bs) && 0 < i < |bs| && 0 < n <= bs[i].units
    ensures Covers(TakeFrom(bs, i, n), x) <==> Covers(bs, x) && !Taken(bs[i], n).Has(x)
  {
    var cs := TakeFrom(bs, i, n);
    if Covers(bs, x) && !Taken(bs[i], n).Has(x) {
      var k :| 0 <= k < |bs| && bs[k].Has(x);
      assert if k == i then cs[i].Has(x) else if k > i && |cs| < |bs| then cs[k - 1].Has(x) else cs[k].Has(x);
    }
    if Covers(cs, x) {
      var k :| 0 <= k < |cs| && cs[k].Has(x);
      var j := if |cs| < |bs| && k >= i then k + 1 else k;
      assert bs[j].Has(x);
      if j < i {
        OrderedApart(bs, j, i);
      } else if j > i {
        OrderedApart(bs, i, j);
      }
    }
  }

  // ----- units -----

  /** The units in the first n blocks. */
  function UnitsTo(bs: seq<Blk>, n: nat): int
    requires n <= |bs|
  {
    if n == 0 then 0 else UnitsTo(bs, n - 1) + bs[n - 1].units
  }

  function AllUnits(bs: seq<Blk>): int {
    UnitsTo(bs, |bs|)
  }

  lemma {:induction false} InsertUnits(bs: seq<Blk>, i: nat, b: Blk, n: nat)
    requires i < |bs| && n <= |bs| + 1
    ensures UnitsTo(Insert(bs, i, b), n) == if n <= i + 1 then UnitsTo(bs, n) else UnitsTo(bs, n - 1) + b.units
  {
    if n > 0 {
      InsertUnits(bs, i, b, n - 1);
    }
  }

  lemma {:induction false} JoinedUnits(bs: seq<Blk>, i: nat, n: nat)
    requires i + 1 < |bs| && n <= |bs| - 1
    ensures UnitsTo(Joined(bs, i), n) == if n <= i then UnitsTo(bs, n) else UnitsTo(bs, n + 1)
  {
    if n > 0 {
      JoinedUnits(bs, i, n - 1);
    }
  }

  lemma {:induction false} RemovedUnits(bs: seq<Blk>, i: nat, n: nat)
    requires i < |bs| && n <= |bs| - 1
    ensures UnitsTo(Removed(bs, i), n) == if n <= i then UnitsTo(bs, n) else UnitsTo(bs, n + 1) - bs[i].units
  {
    if n > 0 {
      RemovedUnits(bs, i, n - 1);
    }
  }

  lemma {:induction false} ReplacedUnits(bs: seq<Blk>, i: nat, c: Blk, n: nat)
    requires i < |bs| && n <= |bs|
    ensures UnitsTo(bs[i := c], n) == if n <= i then UnitsTo(bs, n) else UnitsTo(bs, n) - bs[i].units + c.units
  {
    if n > 0 {
      ReplacedUnits(bs, i, c, n - 1);
    }
  }

  /** Merging loses no unit, and a free adds exactly the block's. */
  lemma FreeUnits(bs: seq<Blk>, i: nat, b: Blk)
    requires i < |bs|
    ensures AllUnits(FreeInto(bs, i, b)) == AllUnits(bs) + b.units
  {
    var cs := Insert(bs, i, b);
    InsertUnits(bs, i, b, |cs|);
    MergeUnits(cs, i + 1);
    MergeUnits(Merge(cs, i + 1), i);
  }

  lemma MergeUnits(bs: seq<Blk>, i: nat)
    requires i < |bs|
    ensures AllUnits(Merge(bs, i)) == AllUnits(bs)
  {
    var cs := Merge(bs, i);
    if i + 1 < |bs| && bs[i].End() == bs[i + 1].at {
      JoinedUnits(bs, i, |cs|);
    }
  }

  lemma TakeUnits(bs: seq<Blk>, i: nat, n: int)
    requires i < |bs|
    ensures AllUnits(TakeFrom(bs, i, n)) == AllUnits(bs) - n
  {
    if bs[i].units == n {
      RemovedUnits(bs, i, |bs| - 1);
    } else {
      ReplacedUnits(bs, i, Blk(bs[i].at, bs[i].units - n), |bs|);
    }
  }

  ghost function LiveUnits(live: set<Blk>): int {
    if live == {} then 0 else
      var b :| b in live;
      b.units + LiveUnits(live - {b})
  }

  /** The order of counting does not matter. */
  lemma {:induction false} LiveUnitsWithout(live: set<Blk>, b: Blk)
    requires b in live
    ensures LiveUnits(live) == b.units + LiveUnits(live - {b})
    decreases |live|
  {
    var c :| c in live && LiveUnits(live) == c.units + LiveUnits(live - {c});
    if c != b {
      LiveUnitsWithout(live - {c}, b);
      LiveUnitsWithout(live - {b}, c);
      assert live - {c} - {b} == live - {b} - {c};
    }
  }

  // ----- the list in memory -----

  type Fields = map<int, int>

  /** The two fields of every header. */
  datatype Headers = Headers(ptr: Fields, size: Fields)

  function Succ(bs: seq<Blk>, i: nat): Blk
    requires i < |bs|
  {
    if i + 1 < |bs| then bs[i + 1] else bs[0]
  }

  /** The headers form one cycle through the blocks of the list, in its order. */
  predicate Ring(bs: seq<Blk>, h: Headers) {
    match h case Headers(ptr, size) =>
      && (forall i | 0 <= i < |bs| :: bs[i].at in ptr && bs[i].at in size && size[bs[i].at] == bs[i].units)
      && forall i {:trigger Succ(bs, i)} | 0 <= i < |bs| :: ptr[bs[i].at] == Succ(bs, i).at
  }

  function AddrAt(bs: seq<Blk>, i: nat): int
    requires i < |bs|
  {
    bs[i].at
  }

  predicate NoSame(bs: seq<Blk>) {
    forall i, j | 0 <= i < j < |bs| :: AddrAt(bs, i) != AddrAt(bs, j)
  }

  lemma OrderedNoSame(bs: seq<Blk>)
    requires Ordered(bs)
    ensures NoSame(bs)
  {
    forall i, j | 0 <= i < j < |bs| ensures AddrAt(bs, i) != AddrAt(bs, j) {
      OrderedApart(bs, i, j);
    }
  }

  /** Changing the link of one listed block, or of none, leaves the others' links. */
  lemma OtherLink(bs: seq<Blk>, i: nat, k: nat)
    requires NoSame(bs) && i < |bs| && k < |bs| && i != k
    ensures bs[i].at != bs[k].at
  {
    assert if i < k then AddrAt(bs, i) != AddrAt(bs, k) else AddrAt(bs, k) != AddrAt(bs, i);
  }

  lemma InsertRing(bs: seq<Blk>, ptr: Fields, size: Fields, i: nat, b: Blk)
    requires Ring(bs, Headers(ptr, size)) && NoSame(bs) && i < |bs| && b.at in size && size[b.at] == b.units
    requires forall k | 0 <= k < |bs| :: bs[k].at != b.at
    ensures NoSame(Insert(bs, i, b))
    ensures Ring(Insert(bs, i, b), Headers(ptr[b.at := ptr[bs[i].at]][bs[i].at := b.at], size))
  {
    var cs := Insert(bs, i, b);
    forall j, k | 0 <= j < k < |cs| ensures AddrAt(cs, j) != AddrAt(cs, k) {
      if j != i + 1 && k != i + 1 {
        OtherLink(bs, if j <= i then j else j - 1, if k <= i then k else k - 1);
      }
    }
    forall k | 0 <= k < |cs|
      ensures cs[k].at in size && size[cs[k].at] == cs[k].units
      ensures ptr[b.at := ptr[bs[i].at]][bs[i].at := b.at][cs[k].at] == Succ(cs, k).at
    {
      if k < i {
        OtherLink(bs, k, i);
        assert Succ(cs, k) == Succ(bs, k);
      } else if k > i + 1 {
        OtherLink(bs, k - 1, i);
        assert cs[k] == bs[k - 1] && Succ(cs, k) == Succ(bs, k - 1);
      } else {
        assert Succ(cs, i + 1) == Succ(bs, i) && Succ(cs, i) == b;
      }
    }
  }

  lemma JoinRing(bs: seq<Blk>, ptr: Fields, size: Fields, i: nat)
    requires Ring(bs, Headers(ptr, size)) && NoSame(bs) && i + 1 < |bs|
    ensures NoSame(Joined(bs, i))
    ensures Ring(Joined(bs, i),
      Headers(ptr[bs[i].at := ptr[bs[i + 1].at]], size[bs[i].at := bs[i].units + bs[i + 1].units]))
  {
    var cs := Joined(bs, i);
    forall j, k | 0 <= j < k < |cs| ensures AddrAt(cs, j) != AddrAt(cs, k) {
      OtherLink(bs, if j <= i then j else j + 1, if k <= i then k else k + 1);
    }
    forall k | 0 <= k < |cs|
      ensures ptr[bs[i].at := ptr[bs[i + 1].at]][cs[k].at] == Succ(cs, k).at
      ensures cs[k].at in ptr && cs[k].at in size
      ensures size[bs[i].at := bs[i].units + bs[i + 1].units][cs[k].at] == cs[k].units
    {
      if k < i {
        OtherLink(bs, k, i);
        assert cs[k] == bs[k] && Succ(cs, k).at == Succ(bs, k).at;
      } else if k > i {
        OtherLink(bs, k + 1, i);
        assert cs[k] == bs[k + 1] && Succ(cs, k).at == Succ(bs, k + 1).at;
      } else {
        assert Succ(cs, k).at == Succ(bs, k + 1).at;
      }
    }
  }

  lemma RemoveRing(bs: seq<Blk>, ptr: Fields, size: Fields, i: nat)
    requires Ring(bs, Headers(ptr, size)) && NoSame(bs) && 0 < i < |bs|
    ensures NoSame(Removed(bs, i)) && Ring(Removed(bs, i), Headers(ptr[bs[i - 1].at := ptr[bs[i].at]], size))
  {
    var cs := Removed(bs, i);
    forall j, k | 0 <= j < k < |cs| ensures AddrAt(cs, j) != AddrAt(cs, k) {
      OtherLink(bs, if j < i then j else j + 1, if k < i then k else k + 1);
    }
    forall k | 0 <= k < |cs|
      ensures ptr[bs[i - 1].at := ptr[bs[i].at]][cs[k].at] == Succ(cs, k).at
      ensures cs[k].at in ptr && cs[k].at in size && size[cs[k].at] == cs[k].units
    {
      if k < i - 1 {
        OtherLink(bs, k, i - 1);
        assert cs[k] == bs[k] && Succ(cs, k) == Succ(bs, k);
      } else if k > i - 1 {
        OtherLink(bs, k + 1, i - 1);
        assert cs[k] == bs[k + 1] && Succ(cs, k) == Succ(bs, k + 1);
      } else {
        assert cs[k] == bs[k] && Succ(cs, k) == Succ(bs, k + 1);
      }
    }
  }

  // ----- free's search -----

  /** The last position whose block is before address a. */
  function Place(bs: seq<Blk>, a: int): (i: nat)
    requires bs != [] && bs[0].at < a
    ensures i < |bs| && bs[i].at < a
    ensures forall k | i < k < |bs| :: a <= bs[k].at
  {
    if bs[|bs| - 1].at < a then |bs| - 1 else Place(bs[..|bs| - 1], a)
  }

  /** free's loop leaves off at block i. */
  predicate Stops(bs: seq<Blk>, i: nat, a: int)
    requires i < |bs|
  {
    var p, q := bs[i].at, Succ(bs, i).at;
    (a > p && a < q) || (p >= q && (a > p || a < q))
  }

  lemma StopsAtPlace(bs: seq<Blk>, i: nat, a: int)
    requires Ordered(bs) && bs[0].at < a && i < |bs| && forall k | 0 <= k < |bs| :: bs[k].at != a
    ensures Stops(bs, i, a) <==> i == Place(bs, a)
  {
    var j := Place(bs, a);
    if i < |bs| - 1 {
      OrderedApart(bs, i, i + 1);
    }
    if 0 < i {
      OrderedApart(bs, 0, i);
    }
    if i < j {
      if i + 1 < j {
        OrderedApart(bs, i + 1, j);
      }
    }
  }

  lemma PlaceIsGap(bs: seq<Blk>, b: Blk)
    requires Ordered(bs) && bs[0].at < b.at && b.units > 0 && forall k | 0 <= k < |bs| :: Apart(b, bs[k])
    ensures Gap(bs, Place(bs, b.at), b) && forall k | 0 <= k < |bs| :: bs[k].at != b.at
  {
  }

  // ----- ownership of memory -----

  /** Live blocks are apart from the free list and from each other, and between them the
      free and live blocks hold exactly the granted bytes. */
  ghost predicate Split(bs: seq<Blk>, live: set<Blk>, granted: seq<Blk>) {
    && (forall b | b in live :: b.units > 0 && forall k | 0 <= k < |bs| :: Apart(b, bs[k]))
    && (forall b, c | b in live && c in live && b != c :: Apart(b, c))
    && forall x :: Covers(granted, x) <==> Covers(bs, x) || InLive(live, x)
  }

  ghost predicate InLive(live: set<Blk>, x: int) {
    exists b :: b in live && b.Has(x)
  }

  /** A block apart from every free and every other live block. */
  ghost predicate Free1(bs: seq<Blk>, live: set<Blk>, b: Blk) {
    && b.units > 0 && (forall k | 0 <= k < |bs| :: Apart(b, bs[k]))
    && forall c | c in live && c != b :: Apart(b, c)
  }

  lemma NotCovered(bs: seq<Blk>, c: Blk, x: int)
    requires c.Has(x) && forall k | 0 <= k < |bs| :: Apart(c, bs[k])
    ensures !Covers(bs, x)
  {
  }

  lemma FreeSplit(bs: seq<Blk>, live: set<Blk>, granted: seq<Blk>, i: nat, b: Blk, granted': seq<Blk>)
    requires Ordered(bs) && Gap(bs, i, b) && Split(bs, live, granted) && Free1(bs, live, b)
    requires forall x :: Covers(granted', x) <==> Covers(granted, x) || b.Has(x)
    ensures Split(FreeInto(bs, i, b), live - {b}, granted')
  {
    var cs := FreeInto(bs, i, b);
    forall x ensures Covers(granted', x) <==> Covers(cs, x) || InLive(live - {b}, x) {
      FreeCovers(bs, i, b, x);
      if InLive(live, x) && !b.Has(x) {
        var c :| c in live && c.Has(x);
        assert c in live - {b};
      }
    }
    FreeOrdered(bs, i, b);
    forall c, k | c in live - {b} && 0 <= k < |cs| ensures Apart(c, cs[k]) {
      if !Apart(c, cs[k]) {
        var x := CommonByte(c, cs, k);
        NotCovered(bs, c, x);
        FreeCovers(bs, i, b, x);
      }
    }
  }

  /** A non-empty block that is not apart from a block of the list shares a byte with it, or
      would hold the empty base inside it. */
  lemma CommonByte(c: Blk, cs: seq<Blk>, k: nat) returns (x: int)
    requires k < |cs| && !Apart(c, cs[k]) && c.units > 0 && cs[k].units > 0
    ensures c.Has(x) && cs[k].Has(x) && Covers(cs, x)
  {
    x := if c.at < cs[k].at then cs[k].at else c.at;
  }

  /** The list holds a block of at least n units. */
  predicate HasBig(bs: seq<Blk>, n: int) {
    exists k :: 0 <= k < |bs| && bs[k].units >= n
  }

  lemma BigEnough(bs: seq<Blk>, n: int, k: int)
    requires HasBig(bs, n) && k <= n
    ensures HasBig(bs, k)
  {
  }

  lemma FreedBig(bs: seq<Blk>, i: nat, b: Blk)
    requires Ordered(bs) && Gap(bs, i, b)
    ensures HasBig(FreeInto(bs, i, b), b.units)
  {
    var cs := Insert(bs, i, b);
    var ds := Merge(cs, i + 1);
    assert ds[i + 1].units >= b.units;
    var es := Merge(ds, i);
    assert if es == ds then es[i + 1].units >= b.units else es[i].units >= b.units;
  }

  /** The predecessor is still in the list after the free. */
  lemma StillIn(bs: seq<Blk>, i: nat, b: Blk)
    requires i < |bs|
    ensures i < |FreeInto(bs, i, b)| && FreeInto(bs, i, b)[i].at == bs[i].at
  {
  }

  function Get(m: Fields, a: int): int {
    if a in m then m[a] else 0
  }

  /** The upper merge of free: bp's fields once it is linked behind p or has swallowed p's successor. */
  function LinkUp(ptr: Fields, size: Fields, bp: int, p: int): (Fields, Fields) {
    var q := Get(ptr, p);
    if bp + 8 * Get(size, bp) == q then (ptr[bp := Get(ptr, q)], size[bp := Get(size, bp) + Get(size, q)])
    else (ptr[bp := q], size)
  }

  /** The lower merge: p links to bp or swallows it. */
  function LinkDown(ptr: Fields, size: Fields, bp: int, p: int): (Fields, Fields) {
    if p + 8 * Get(size, p) == bp then (ptr[p := Get(ptr, bp)], size[p := Get(size, p) + Get(size, bp)])
    else (ptr[p := bp], size)
  }

  lemma SuccIn(bs: seq<Blk>, ptr: Fields, size: Fields, i: nat)
    requires Ring(bs, Headers(ptr, size)) && i < |bs|
    ensures ptr[bs[i].at] in ptr && ptr[bs[i].at] in size
  {
    assert ptr[bs[i].at] == Succ(bs, i).at;
  }

  lemma UpRing(bs: seq<Blk>, ptr: Fields, size: Fields, i: nat, b: Blk)
    requires Ordered(bs) && Ring(bs, Headers(ptr, size)) && Gap(bs, i, b) && b.at in size && size[b.at] == b.units
    requires bs[0].at < b.at && forall k | 0 <= k < |bs| :: bs[k].at != b.at
    ensures var up, ds := LinkUp(ptr, size, b.at, bs[i].at), Merge(Insert(bs, i, b), i + 1);
      Ring(ds, Headers(up.0[bs[i].at := b.at], up.1)) && NoSame(ds)
  {
    OrderedNoSame(bs);
    InsertRing(bs, ptr, size, i, b);
    NextPlace(bs, i, b);
    assert ptr[bs[i].at] == Succ(bs, i).at;
    if i + 1 < |bs| && b.End() == bs[i + 1].at {
      SwallowRing(bs, ptr, size, i, b);
    }
  }

  lemma SwallowRing(bs: seq<Blk>, ptr: Fields, size: Fields, i: nat, b: Blk)
    requires i + 1 < |bs| && bs[i].at != b.at && bs[i + 1].at != b.at && bs[i].at != bs[i + 1].at
    requires ptr.Keys >= {bs[i].at, bs[i + 1].at}
    requires Ring(Insert(bs, i, b), Headers(ptr[b.at := ptr[bs[i].at]][bs[i].at := b.at], size))
    requires NoSame(Insert(bs, i, b))
    ensures Ring(Joined(Insert(bs, i, b), i + 1),
      Headers(ptr[b.at := ptr[bs[i + 1].at]][bs[i].at := b.at], size[b.at := b.units + bs[i + 1].units]))
    ensures NoSame(Joined(Insert(bs, i, b), i + 1))
  {
    var cs, p := Insert(bs, i, b), bs[i].at;
    var ptr1 := ptr[b.at := ptr[p]][p := b.at];
    JoinRing(cs, ptr1, size, i + 1);
    SwapUpdates(ptr, b.at, ptr[p], p, b.at, ptr[bs[i + 1].at]);
  }

  /** After an update of b and one of p, a second update of b replaces the first. */
  lemma SwapUpdates(m: Fields, b: int, x: int, p: int, y: int, z: int)
    requires b != p
    ensures m[b := x][p := y][b := z] == m[b := z][p := y]
  {
  }

  /** What lies behind p is the next block or, at the end, the base, which b cannot touch. */
  lemma NextPlace(bs: seq<Blk>, i: nat, b: Blk)
    requires Ordered(bs) && Gap(bs, i, b) && bs[0].at < b.at
    ensures b.End() == Succ(bs, i).at <==> i + 1 < |bs| && b.End() == bs[i + 1].at
  {
  }

  /** free's assignments thread the headers through the list with b in it. */
  lemma FreeRing(bs: seq<Blk>, ptr: Fields, size: Fields, i: nat, b: Blk)
    requires Ordered(bs) && Ring(bs, Headers(ptr, size)) && Gap(bs, i, b) && b.at in size && size[b.at] == b.units
    requires bs[0].at < b.at && forall k | 0 <= k < |bs| :: bs[k].at != b.at
    ensures var up := LinkUp(ptr, size, b.at, bs[i].at);
      var down := LinkDown(up.0, up.1, b.at, bs[i].at);
      Ring(FreeInto(bs, i, b), Headers(down.0, down.1))
  {
    UpRing(bs, ptr, size, i, b);
    var up, ds := LinkUp(ptr, size, b.at, bs[i].at), Merge(Insert(bs, i, b), i + 1);
    DownRing(ds, up.0, up.1, i, b.at);
  }

  lemma DownRing(ds: seq<Blk>, ptr: Fields, size: Fields, i: nat, bp: int)
    requires i + 1 < |ds| && ds[i + 1].at == bp && ds[i].at != bp && bp in ptr && bp in size && ds[i].at in size
    requires Ring(ds, Headers(ptr[ds[i].at := bp], size)) && NoSame(ds)
    ensures var down := LinkDown(ptr, size, bp, ds[i].at); Ring(Merge(ds, i), Headers(down.0, down.1))
  {
    if ds[i].End() == bp {
      JoinRing(ds, ptr[ds[i].at := bp], size, i);
      assert ptr[ds[i].at := bp][ds[i].at := ptr[bp]] == ptr[ds[i].at := ptr[bp]];
    }
  }

  /** The allocator's memory: header fields and freep, with the list, the live blocks and the regions they describe. */
  datatype Mem = Mem(base: int, ptr: Fields, size: Fields, freep: int, bs: seq<Blk>, live: set<Blk>, granted: seq<Blk>)

  /** The free list is one address-ordered cycle with the base in it, nothing overlaps, and
      free and live blocks together hold exactly what was granted, byte for byte and unit for unit. */
  ghost predicate MemOk(m: Mem) {
    match m case Mem(base, ptr, size, freep, bs, live, granted) =>
      && 0 < base && Ordered(bs) && bs[0] == Blk(base, 0) && Ring(bs, Headers(ptr, size)) && Listed(bs, freep)
      && (forall b | b in live :: base < b.at && b.at in size && size[b.at] == b.units)
      && Split(bs, live, granted) && AllUnits(bs) + LiveUnits(live) == AllUnits(granted)
  }

  /** b can be freed: it is apart from everything else, and more is its region if it is new. */
  ghost predicate Freeable(m: Mem, b: Blk, more: seq<Blk>) {
    match m case Mem(base, _, size, _, bs, live, granted) =>
      && base < b.at && b.at in size && size[b.at] == b.units && Free1(bs, live, b)
      && more == (if b in live then [] else [b])
      && forall x :: Covers(granted + more, x) <==> Covers(granted, x) || b.Has(x)
  }

  ghost function FreedMem(m: Mem, b: Blk, more: seq<Blk>): Mem
    requires MemOk(m) && Freeable(m, b, more)
  {
    PlaceIsGap(m.bs, b);
    var p := m.bs[Place(m.bs, b.at)].at;
    var up := LinkUp(m.ptr, m.size, b.at, p);
    var down := LinkDown(up.0, up.1, b.at, p);
    Mem(m.base, down.0, down.1, p, FreeInto(m.bs, Place(m.bs, b.at), b), m.live - {b}, m.granted + more)
  }

  lemma FreedUnits(m: Mem, b: Blk, more: seq<Blk>)
    requires more == if b in m.live then [] else [b]
    ensures LiveUnits(m.live - {b}) + b.units + AllUnits(m.granted) == LiveUnits(m.live) + AllUnits(m.granted + more)
  {
    if b in m.live {
      LiveUnitsWithout(m.live, b);
      assert m.granted + more == m.granted;
    } else {
      assert m.live - {b} == m.live;
      MoreUnits(m.granted, b, |m.granted|);
    }
  }

  lemma {:induction false} MoreUnits(g: seq<Blk>, b: Blk, n: nat)
    requires n <= |g|
    ensures UnitsTo(g + [b], n) == UnitsTo(g, n) && (n == |g| ==> AllUnits(g + [b]) == AllUnits(g) + b.units)
  {
    if n > 0 {
      MoreUnits(g, b, n - 1);
    }
  }

  lemma TakenUnits(m: Mem, i: nat, n: int)
    requires i < |m.bs| && Taken(m.bs[i], n) !in m.live
    ensures AllUnits(TakeFrom(m.bs, i, n)) + LiveUnits(m.live + {Taken(m.bs[i], n)}) ==
      AllUnits(m.bs) + LiveUnits(m.live)
  {
    var b := Taken(m.bs[i], n);
    TakeUnits(m.bs, i, n);
    LiveUnitsWithout(m.live + {b}, b);
    assert m.live + {b} - {b} == m.live;
  }

  lemma FreedOk(m: Mem, b: Blk, more: seq<Blk>)
    requires MemOk(m) && Freeable(m, b, more)
    ensures MemOk(FreedMem(m, b, more)) && HasBig(FreedMem(m, b, more).bs, b.units) && FreedMem(m, b, more).freep != 0
  {
    var i := Place(m.bs, b.at);
    PlaceIsGap(m.bs, b);
    FreeRing(m.bs, m.ptr, m.size, i, b);
    FreeOrdered(m.bs, i, b);
    FreedBig(m.bs, i, b);
    StillIn(m.bs, i, b);
    FreeSplit(m.bs, m.live, m.granted, i, b, m.granted + more);
    FreeUnits(m.bs, i, b);
    FreedUnits(m, b, more);
    var w := FreedMem(m, b, more);
    ListedAt(w.bs, i, w.freep);
    if i > 0 {
      OrderedApart(m.bs, 0, i);
    }
    forall c | c in w.live ensures c.at in w.size && w.size[c.at] == c.units {
      KeepsSize(m, b, i, c);
    }
  }

  /** free changes no header of another live block. */
  lemma KeepsSize(m: Mem, b: Blk, i: nat, c: Blk)
    requires MemOk(m) && b.at in m.size && b.units > 0 && i < |m.bs| && c in m.live && c != b && Apart(b, c)
    requires b.at != m.bs[i].at
    requires forall k | 0 <= k < |m.bs| :: Apart(c, m.bs[k])
    ensures var up := LinkUp(m.ptr, m.size, b.at, m.bs[i].at);
      var down := LinkDown(up.0, up.1, b.at, m.bs[i].at);
      c.at in down.1 && down.1[c.at] == c.units
  {
    assert Apart(c, m.bs[i]) && c.at != b.at;
    assert c.at != m.bs[i].at;
  }

  // ----- taking a block -----

  lemma TakeSplit(bs: seq<Blk>, live: set<Blk>, granted: seq<Blk>, i: nat, n: int)
    requires Ordered(bs) && 0 < i < |bs| && 0 < n <= bs[i].units && Split(bs, live, granted)
    ensures Split(TakeFrom(bs, i, n), live + {Taken(bs[i], n)}, granted) && Taken(bs[i], n) !in live
  {
    var cs, b := TakeFrom(bs, i, n), Taken(bs[i], n);
    forall c | c in live ensures Apart(b, c) && Apart(c, b) {
      assert Apart(c, bs[i]);
    }
    forall k | 0 <= k < |cs| ensures Apart(b, cs[k]) && forall c | c in live :: Apart(c, cs[k]) {
      TakenApart(bs, i, n, k);
      var j := if |cs| < |bs| && k >= i then k + 1 else k;
      assert forall c | c in live :: Apart(c, bs[j]);
    }
    forall x ensures Covers(granted, x) <==> Covers(cs, x) || InLive(live + {b}, x) {
      TakeCovers(bs, i, n, x);
      if InLive(live, x) {
        var c :| c in live && c.Has(x);
        assert c in live + {b};
      }
      if b.Has(x) {
        assert b in live + {b} && bs[i].Has(x);
      }
    }
  }

  lemma TakenApart(bs: seq<Blk>, i: nat, n: int, k: nat)
    requires Ordered(bs) && 0 < i < |bs| && 0 < n <= bs[i].units && k < |TakeFrom(bs, i, n)|
    ensures Apart(Taken(bs[i], n), TakeFrom(bs, i, n)[k])
  {
    var whole := bs[i].units == n;
    var j := if whole && k >= i then k + 1 else k;
    if j < i {
      OrderedApart(bs, j, i);
    } else if i < j {
      OrderedApart(bs, i, j);
    }
  }

  /** p->s.size -= n, then p += p->s.size and p->s.size = n. */
  function SplitSize(bs: seq<Blk>, size: Fields, i: nat, n: int): Fields
    requires i < |bs|
  {
    size[bs[i].at := bs[i].units - n][Taken(bs[i], n).at := n]
  }

  /** malloc's assignments when block i, behind prevp, is large enough. */
  ghost function TakenMem(m: Mem, i: nat, n: int): Mem
    requires MemOk(m) && 0 < i < |m.bs|
  {
    var p, prevp := m.bs[i].at, m.bs[i - 1].at;
    if m.bs[i].units == n then
      m.(ptr := m.ptr[prevp := m.ptr[p]], freep := prevp, bs := Removed(m.bs, i), live := m.live + {m.bs[i]})
    else
      m.(size := SplitSize(m.bs, m.size, i, n), freep := prevp,
         bs := TakeFrom(m.bs, i, n), live := m.live + {Taken(m.bs[i], n)})
  }

  lemma TakenOk(m: Mem, i: nat, n: int)
    requires MemOk(m) && 0 < i < |m.bs| && 0 < n <= m.bs[i].units
    ensures MemOk(TakenMem(m, i, n)) && TakenMem(m, i, n).freep != 0
    ensures TakenMem(m, i, n).live == m.live + {Taken(m.bs[i], n)} && Taken(m.bs[i], n) !in m.live
  {
    AfterBase(m, i);
    TakeSplit(m.bs, m.live, m.granted, i, n);
    TakenUnits(m, i, n);
    if m.bs[i].units == n {
      assert Taken(m.bs[i], n) == m.bs[i];
      WholeTaken(m, i);
    } else {
      PartTaken(m, i, n);
    }
  }

  lemma WholeTaken(m: Mem, i: nat)
    requires MemOk(m) && 0 < i < |m.bs|
    ensures MemOk(TakenMem(m, i, m.bs[i].units))
  {
    var n := m.bs[i].units;
    var w := TakenMem(m, i, n);
    TakeOrdered(m.bs, i, n);
    TakeSplit(m.bs, m.live, m.granted, i, n);
    TakenUnits(m, i, n);
    assert Taken(m.bs[i], n) == m.bs[i];
    OrderedNoSame(m.bs);
    RemoveRing(m.bs, m.ptr, m.size, i);
    ListedAt(w.bs, i - 1, w.freep);
    forall c | c in w.live ensures m.base < c.at && c.at in w.size && w.size[c.at] == c.units {
      TakenKeepsSize(m, i, n, c);
    }
  }

  lemma PartTaken(m: Mem, i: nat, n: int)
    requires MemOk(m) && 0 < i < |m.bs| && 0 < n < m.bs[i].units
    ensures MemOk(TakenMem(m, i, n))
  {
    var w := TakenMem(m, i, n);
    TakeOrdered(m.bs, i, n);
    TakeSplit(m.bs, m.live, m.granted, i, n);
    TakenUnits(m, i, n);
    SplitRing(m.bs, m.ptr, m.size, i, n);
    assert Ring(w.bs, Headers(w.ptr, w.size));
    ListedAt(w.bs, i - 1, w.freep);
    forall c | c in w.live ensures m.base < c.at && c.at in w.size && w.size[c.at] == c.units {
      TakenKeepsSize(m, i, n, c);
    }
  }

  lemma ListedAt(bs: seq<Blk>, k: nat, a: int)
    requires k < |bs| && bs[k].at == a
    ensures Listed(bs, a)
  {
  }

  lemma AfterBase(m: Mem, i: nat)
    requires MemOk(m) && 0 < i < |m.bs|
    ensures m.base < m.bs[i].at && m.bs[i - 1].at != 0
  {
    OrderedApart(m.bs, 0, i);
    if 1 < i {
      OrderedApart(m.bs, 0, i - 1);
    }
  }

  lemma TakenKeepsSize(m: Mem, i: nat, n: int, c: Blk)
    requires MemOk(m) && 0 < i < |m.bs| && 0 < n <= m.bs[i].units && (c in m.live || c == Taken(m.bs[i], n))
    ensures m.base < c.at && c.at in TakenMem(m, i, n).size && TakenMem(m, i, n).size[c.at] == c.units
  {
    AfterBase(m, i);
    assert c in m.live ==> Apart(c, m.bs[i]);
  }

  lemma SplitRing(bs: seq<Blk>, ptr: Fields, size: Fields, i: nat, n: int)
    requires Ordered(bs) && Ring(bs, Headers(ptr, size)) && 0 < i < |bs| && 0 < n < bs[i].units
    ensures Ring(TakeFrom(bs, i, n), Headers(ptr, SplitSize(bs, size, i, n)))
  {
    var cs, size' := TakeFrom(bs, i, n), SplitSize(bs, size, i, n);
    forall k | 0 <= k < |cs|
      ensures cs[k].at in size' && size'[cs[k].at] == cs[k].units && Succ(cs, k).at == Succ(bs, k).at
    {
      if k < i {
        OrderedApart(bs, k, i);
      } else if i < k {
        OrderedApart(bs, i, k);
      }
    }
  }

  /** free's assignments behind p. */
  method Links(ptr0: Fields, size0: Fields, bp: int, p: int) returns (ptr: Fields, size: Fields)
    requires bp != p && bp in size0 && p in size0 && p in ptr0 && ptr0[p] in ptr0 && ptr0[p] in size0
    ensures var up := LinkUp(ptr0, size0, bp, p); (ptr, size) == LinkDown(up.0, up.1, bp, p)
  {
    ptr, size := ptr0, size0;
    if bp + 8 * size[bp] == ptr[p] {
      size := size[bp := size[bp] + size[ptr[p]]];
      ptr := ptr[bp := ptr[ptr[p]]];
    } else {
      ptr := ptr[bp := ptr[p]];
    }
    if p + 8 * size[p] == bp {
      size := size[p := size[p] + size[bp]];
      ptr := ptr[p := ptr[bp]];
    } else {
      ptr := ptr[p := bp];
    }
  }

  // ----- malloc -----

  /** Steps from block s to block i along the cycle. */
  function Steps(n: nat, s: nat, i: nat): int {
    if s <= i then i - s else n - s + i
  }

  lemma NextStep(n: nat, k: nat, i: nat)
    requires k < n && i < n && i != k
    ensures Steps(n, Up(n, k), Up(n, i)) == Steps(n, Up(n, k), i) + 1 < n && Up(n, i) < n
  {
  }

  function Up(n: nat, i: nat): nat {
    if i + 1 < n then i + 1 else 0
  }

  /** Units for nbytes, header included, in 32-bit arithmetic. */
  function Units(nbytes: int): int {
    (nbytes + 8 - 1) % 0x1_0000_0000 / 8 + 1
  }

  /** The block is large enough exactly when the rounding does not wrap. */
  lemma LargeEnough(nbytes: int)
    requires 0 <= nbytes < 0x1_0000_0000
    ensures 8 * (Units(nbytes) - 1) >= nbytes <==> nbytes + 7 < 0x1_0000_0000
    ensures nbytes + 7 < 0x1_0000_0000 ==> 8 * (Units(nbytes) - 1) < nbytes + 8
    ensures nbytes + 7 >= 0x1_0000_0000 ==> Units(nbytes) == 1
    ensures 1 <= Units(nbytes) <= 0x2000_0000
  {
  }

  const MINCORE := 4096

  function CoreUnits(nunits: int): int {
    if nunits < MINCORE then MINCORE else nunits
  }

  /** sbrk's answer for nu units: new memory above the base, apart from everything granted. */
  ghost predicate Fresh(m: Mem, at: int, nu: int) {
    m.base < at && forall x | Blk(at, nu).Has(x) :: !Covers(m.granted, x)
  }

  lemma LiveFreeable(m: Mem, b: Blk)
    requires MemOk(m) && b in m.live
    ensures Freeable(m, b, [])
  {
    assert m.granted + [] == m.granted;
    forall x ensures Covers(m.granted, x) <==> Covers(m.granted, x) || b.Has(x) {
      assert b.Has(x) ==> InLive(m.live, x);
    }
  }

  lemma NotLive(m: Mem, b: Blk)
    requires MemOk(m) && Fresh(m, b.at, b.units) && 0 < b.units
    ensures b !in m.live
  {
    if b in m.live {
      assert b.Has(b.at) && InLive(m.live, b.at);
      assert false;
    }
  }

  /** Writing the size of a new region touches no header in use, and the region can be freed. */
  lemma NewRegion(m: Mem, at: int, nu: int)
    requires MemOk(m) && Fresh(m, at, nu) && 0 < nu
    ensures var w := m.(size := m.size[at := nu]);
      MemOk(w) && Freeable(w, Blk(at, nu), [Blk(at, nu)])
  {
    var w, b := m.(size := m.size[at := nu]), Blk(at, nu);
    assert b.Has(at);
    forall k | 0 <= k < |m.bs| ensures Apart(b, m.bs[k]) && m.bs[k].at != at {
      if k > 0 && !Apart(b, m.bs[k]) {
        var x := CommonByte(b, m.bs, k);
        assert false;
      }
    }
    forall c | c in m.live ensures Apart(b, c) && c.at != at {
      if !Apart(b, c) {
        var x := if c.at < at then at else c.at;
        assert InLive(m.live, x) && b.Has(x);
        assert false;
      }
    }
    MoreCovers(m.granted, [b]);
    forall x ensures Covers([b], x) <==> b.Has(x) {
      assert b.Has(x) ==> [b][0].Has(x);
    }
  }

  class Heap {
    const base: int
    /** s.ptr and s.size of the headers in memory. */
    var ptr: Fields
    var size: Fields
    var freep: int

    ghost var bs: seq<Blk>
    ghost var live: set<Blk>
    ghost var granted: seq<Blk>

    ghost function Now(): Mem
      reads this
    {
      Mem(base, ptr, size, freep, bs, live, granted)
    }

    /** Before the first malloc there is no list. */
    ghost predicate Valid()
      reads this
    {
      if freep == 0 then 0 < base && bs == [] && live == {} && granted == [] else MemOk(Now())
    }

    constructor (base: int)
      requires 0 < base
      ensures Valid() && this.base == base && freep == 0
    {
      this.base := base;
      ptr, size, freep := map[], map[], 0;
      bs, live, granted := [], {}, [];
    }

    /** free's search for the block to link behind. */
    method Search(bp: int) returns (p: int)
      requires MemOk(Now()) && base < bp && forall k | 0 <= k < |bs| :: bs[k].at != bp
      ensures p == bs[Place(bs, bp)].at
    {
      p := freep;
      ghost var pos, i := Place(bs, bp), Where(bs, p);
      StopsAtPlace(bs, i, bp);
      while !(bp > p && bp < ptr[p])
        invariant 0 <= i < |bs| && p == bs[i].at && (Stops(bs, i, bp) <==> i == pos)
        decreases if i <= pos then pos - i else |bs| - i + pos
      {
        if p >= ptr[p] && (bp > p || bp < ptr[p]) {
          break;
        }
        p := ptr[p];
        i := if i + 1 < |bs| then i + 1 else 0;
        StopsAtPlace(bs, i, bp);
      }
    }

    /** free of the block whose header is at bp; more is the region it came from, if it is new. */
    method FreeBlock(bp: int, ghost more: seq<Blk>)
      requires freep != 0 && MemOk(Now()) && bp in size && Freeable(Now(), Blk(bp, size[bp]), more)
      modifies this
      ensures MemOk(Now()) && freep != 0 && HasBig(bs, old(size)[bp])
      ensures live == old(live) - {Blk(bp, old(size)[bp])} && granted == old(granted) + more
      ensures forall x :: Covers(bs, x) <==> Covers(old(bs), x) || Blk(bp, old(size)[bp]).Has(x)
    {
      ghost var m, b := Now(), Blk(bp, size[bp]);
      PlaceIsGap(bs, b);
      FreedOk(m, b, more);
      ghost var w := FreedMem(m, b, more);
      var p := Search(bp);
      SuccIn(bs, ptr, size, Place(bs, bp));
      ptr, size := Links(ptr, size, bp, p);
      freep := p;
      bs, live, granted := w.bs, w.live, w.granted;
      forall x ensures Covers(w.bs, x) <==> Covers(m.bs, x) || b.Has(x) {
        FreeCovers(m.bs, Place(m.bs, bp), b, x);
      }
    }

    /** free. The block's bytes, and no others, become free. */
    method Free(ap: int)
      requires freep != 0 && MemOk(Now()) && ap - 8 in size && Blk(ap - 8, size[ap - 8]) in live
      modifies this
      ensures MemOk(Now()) && freep != 0 && granted == old(granted)
      ensures live == old(live) - {Blk(ap - 8, old(size)[ap - 8])}
      ensures forall x :: Covers(bs, x) <==> Covers(old(bs), x) || Blk(ap - 8, old(size)[ap - 8]).Has(x)
    {
      LiveFreeable(Now(), Blk(ap - 8, size[ap - 8]));
      assert granted + [] == granted;
      FreeBlock(ap - 8, []);
    }

    /** morecore: at least MINCORE units from sbrk, whose answer is brk, put on the free list. */
    method Morecore(nunits: int, brk: Option<int>) returns (p: int)
      requires freep != 0 && MemOk(Now()) && 0 < nunits
      requires brk.Some? ==> Fresh(Now(), brk.value, CoreUnits(nunits))
      modifies this
      ensures freep != 0 && MemOk(Now()) && live == old(live)
      ensures brk.None? ==> p == 0 && Now() == old(Now())
      ensures brk.Some? ==>
        p == freep && HasBig(bs, nunits) && granted == old(granted) + [Blk(brk.value, CoreUnits(nunits))]
    {
      var nu := nunits;
      if nu < MINCORE {
        nu := MINCORE;
      }
      if brk.None? {
        return 0;
      }
      ghost var m, b := Now(), Blk(brk.value, nu);
      NewRegion(m, brk.value, nu);
      NotLive(m, b);
      size := size[brk.value := nu];
      assert Now() == m.(size := m.size[brk.value := nu]);
      FreeBlock(brk.value, [b]);
      BigEnough(bs, nu, nunits);
      return freep;
    }

    /** The list is created at the first malloc. */
    method Init()
      requires Valid() && freep == 0
      modifies this
      ensures freep == base && MemOk(Now()) && bs == [Blk(base, 0)] && live == {} && granted == []
    {
      ptr, size, freep := ptr[base := base], size[base := 0], base;
      bs := [Blk(base, 0)];
      ListedAt(bs, 0, base);
      assert Split(bs, live, granted) && AllUnits(bs) == UnitsTo(bs, 0) == 0;
    }

    /** malloc; brk is what sbrk would answer. The result is a new live block of Units(nbytes)
        units; 0 only if no free block is large enough and sbrk fails. */
    method Malloc(nbytes: int, brk: Option<int>) returns (r: Option<int>)
      requires Valid() && 0 <= nbytes < 0x1_0000_0000
      requires brk.Some? ==> 8 * CoreUnits(Units(nbytes)) < 0x8000_0000 && base < brk.value
      requires brk.Some? ==> forall x | Blk(brk.value, CoreUnits(Units(nbytes))).Has(x) :: !Covers(granted, x)
      modifies this
      ensures freep != 0 && MemOk(Now())
      ensures r.None? <==> brk.None? && !HasBig(old(bs), Units(nbytes))
      ensures r.None? ==> live == old(live) && granted == old(granted)
      ensures r.Some? ==>
        live == old(live) + {Blk(r.value - 8, Units(nbytes))} && Blk(r.value - 8, Units(nbytes)) !in old(live)
      ensures nbytes + 7 < 0x1_0000_0000 ==> nbytes <= 8 * (Units(nbytes) - 1) < nbytes + 8
      ensures granted ==
        if r.None? || HasBig(old(bs), Units(nbytes)) then old(granted)
        else old(granted) + [Blk(brk.value, CoreUnits(Units(nbytes)))]
    {
      LargeEnough(nbytes);
      if freep == 0 {
        Init();
        assert HasBig(old(bs), Units(nbytes)) == HasBig(bs, Units(nbytes));
      }
      r := Take(Units(nbytes), brk);
    }

    /** malloc once the list exists. */
    method Take(nunits: int, brk: Option<int>) returns (r: Option<int>)
      requires freep != 0 && MemOk(Now()) && 0 < nunits
      requires brk.Some? ==> Fresh(Now(), brk.value, CoreUnits(nunits))
      modifies this
      ensures freep != 0 && MemOk(Now())
      ensures r.None? <==> brk.None? && !HasBig(old(bs), nunits)
      ensures r.None? ==> live == old(live) && granted == old(granted)
      ensures r.Some? ==> live == old(live) + {Blk(r.value - 8, nunits)} && Blk(r.value - 8, nunits) !in old(live)
      ensures granted ==
        if r.None? || HasBig(old(bs), nunits) then old(granted) else old(granted) + [Blk(brk.value, CoreUnits(nunits))]
    {
      var found, p, prevp; ghost var i;
      found, p, prevp, i := FirstFit(nunits);
      if !found {
        p := Morecore(nunits, brk);
        if p == 0 {
          return None;
        }
        found, p, prevp, i := FirstFit(nunits);
      }
      r := Unlink(p, prevp, nunits, i);
    }

    /** malloc's loop, from its start or from a return of morecore until it takes a block or
        is back at freep. */
    method FirstFit(nunits: int) returns (found: bool, p: int, prevp: int, ghost i: nat)
      requires freep != 0 && MemOk(Now()) && 0 < nunits
      ensures found <==> HasBig(bs, nunits)
      ensures found ==> 0 < i < |bs| && bs[i].at == p && bs[i - 1].at == prevp && bs[i].units >= nunits
    {
      prevp := freep;
      p := ptr[prevp];
      ghost var k := Where(bs, freep);
      i := Up(|bs|, k);
      Started(Now(), p, prevp, k, nunits);
      while true
        invariant At(Now(), p, prevp, i, k) && Passed(bs, k, i, nunits)
        decreases |bs| - Steps(|bs|, Up(|bs|, k), i)
      {
        if size[p] >= nunits {
          BigHere(bs, i, nunits);
          return true, p, prevp, i;
        }
        if p == freep {
          WentRound(Now(), p, prevp, i, k, nunits);
          return false, p, prevp, i;
        }
        Advanced(Now(), p, prevp, i, k, nunits);
        i := Up(|bs|, i);
        prevp, p := p, ptr[p];
      }
    }

    /** malloc's taking of a block that is large enough. */
    method Unlink(p0: int, prevp: int, nunits: int, ghost i: nat) returns (r: Option<int>)
      requires MemOk(Now()) && 0 < i < |bs| && bs[i].at == p0 && bs[i - 1].at == prevp && 0 < nunits <= bs[i].units
      modifies this
      ensures freep != 0 && MemOk(Now()) && granted == old(granted)
      ensures r.Some? && live == old(live) + {Blk(r.value - 8, nunits)} && Blk(r.value - 8, nunits) !in old(live)
    {
      ghost var m := Now();
      TakenOk(m, i, nunits);
      ghost var w := TakenMem(m, i, nunits);
      var p;
      ptr, size, p := Cut(bs, ptr, size, i, prevp, nunits, p0);
      freep := prevp;
      bs, live := w.bs, w.live;
      assert Now() == w;
      r := Some(p + 8);
      assert Blk(r.value - 8, nunits) == Taken(m.bs[i], nunits);
    }
  }

  /** malloc's assignments to the fields of p0 and prevp. */
  method Cut(
      ghost bs: seq<Blk>, ptr0: Fields, size0: Fields, ghost i: nat, prevp: int, nunits: int, p0: int)
    returns (ptr: Fields, size: Fields, p: int)
    requires Ring(bs, Headers(ptr0, size0)) && 0 < i < |bs| && bs[i].at == p0 && bs[i - 1].at == prevp
    requires 0 < nunits <= bs[i].units
    ensures p == Taken(bs[i], nunits).at
    ensures bs[i].units == nunits ==> ptr == ptr0[prevp := ptr0[p0]] && size == size0
    ensures bs[i].units != nunits ==> ptr == ptr0 && size == SplitSize(bs, size0, i, nunits)
  {
    ptr, size, p := ptr0, size0, p0;
    if size[p] == nunits {
      ptr := ptr[prevp := ptr[p]];
    } else {
      size := size[p := size[p] - nunits];
      p := p + 8 * size[p];
      size := size[p := nunits];
    }
  }

  /** p is block i, prevp the block before it on the cycle, and freep is block k. */
  ghost predicate At(m: Mem, p: int, prevp: int, i: nat, k: nat) {
    match m case Mem(_, _, _, freep, bs, _, _) =>
      i < |bs| && k < |bs| && bs[i].at == p && bs[k].at == freep &&
        (if i == 0 then bs[|bs| - 1].at else bs[i - 1].at) == prevp
  }

  /** Every block from the one behind freep up to p, p excluded, is too small. */
  ghost predicate Passed(bs: seq<Blk>, k: nat, i: nat, n: int)
    requires k < |bs|
  {
    forall j | 0 <= j < |bs| && Steps(|bs|, Up(|bs|, k), j) < Steps(|bs|, Up(|bs|, k), i) :: bs[j].units < n
  }

  lemma BigHere(bs: seq<Blk>, i: nat, n: int)
    requires Sized(bs) && i < |bs| && bs[i].units >= n > 0
    ensures HasBig(bs, n) && i > 0
  {
  }

  lemma Started(m: Mem, p: int, prevp: int, k: nat, n: int)
    requires MemOk(m) && k < |m.bs| && m.bs[k].at == m.freep == prevp && p == m.ptr[prevp]
    ensures At(m, p, prevp, Up(|m.bs|, k), k) && Passed(m.bs, k, Up(|m.bs|, k), n)
  {
    assert Succ(m.bs, k) == m.bs[Up(|m.bs|, k)];
  }

  lemma Advanced(m: Mem, p: int, prevp: int, i: nat, k: nat, n: int)
    requires MemOk(m) && At(m, p, prevp, i, k) && Passed(m.bs, k, i, n) && m.bs[i].units < n && p != m.freep
    ensures At(m, m.ptr[p], p, Up(|m.bs|, i), k) && Passed(m.bs, k, Up(|m.bs|, i), n)
    ensures Steps(|m.bs|, Up(|m.bs|, k), Up(|m.bs|, i)) == Steps(|m.bs|, Up(|m.bs|, k), i) + 1
  {
    NextStep(|m.bs|, k, i);
    assert Succ(m.bs, i) == m.bs[Up(|m.bs|, i)];
    forall j | 0 <= j < |m.bs| && Steps(|m.bs|, Up(|m.bs|, k), j) < Steps(|m.bs|, Up(|m.bs|, k), Up(|m.bs|, i))
      ensures m.bs[j].units < n
    {
      if j != i {
        assert Steps(|m.bs|, Up(|m.bs|, k), j) != Steps(|m.bs|, Up(|m.bs|, k), i);
      }
    }
  }

  /** Back at freep with a block that is too small: no block is large enough. */
  lemma WentRound(m: Mem, p: int, prevp: int, i: nat, k: nat, n: int)
    requires MemOk(m) && At(m, p, prevp, i, k) && Passed(m.bs, k, i, n) && m.bs[i].units < n && p == m.freep
    ensures !HasBig(m.bs, n)
  {
    OrderedNoSame(m.bs);
    if i != k {
      OtherLink(m.bs, i, k);
      assert false;
    }
    forall j | 0 <= j < |m.bs| ensures m.bs[j].units < n {
      if j != k {
        assert Steps(|m.bs|, Up(|m.bs|, k), j) < Steps(|m.bs|, Up(|m.bs|, k), k);
      }
    }
  }

  lemma MoreCovers(g: seq<Blk>, more: seq<Blk>)
    ensures forall x :: Covers(g + more, x) <==> Covers(g, x) || Covers(more, x)
  {
    var h := g + more;
    forall x ensures Covers(h, x) <==> Covers(g, x) || Covers(more, x) {
      if Covers(g, x) {
        var k :| 0 <= k < |g| && g[k].Has(x);
        assert h[k].Has(x);
      }
      if Covers(more, x) {
        var k :| 0 <= k < |more| && more[k].Has(x);
        assert h[|g| + k].Has(x);
      }
      if Covers(h, x) {
        var k :| 0 <= k < |h| && h[k].Has(x);
        assert if k < |g| then g[k].Has(x) else more[k - |g|].Has(x);
      }
    }
  }

  predicate Listed(bs: seq<Blk>, a: int) {
    exists k :: 0 <= k < |bs| && bs[k].at == a
  }

  ghost function Where(bs: seq<Blk>, a: int): (k: nat)
    requires Listed(bs, a)
    ensures k < |bs| && bs[k].at == a
  {
    var k :| 0 <= k < |bs| && bs[k].at == a;
    k
  }
}
