/** fork's copy of an address space: copyuvm over the machine of vm.c. The machine's own
    frames are those of the copy in the making; the parent's are in the hands of nobody here. */
module CopyVm {
  import opened Blocks
  import opened PageTables
  import opened Vm

  /** An address space in the frames src whose first n pages are present. */
  ghost predicate Source(src: set<nat>, mem: Memory, pd: nat, n: nat) {
    && pd in src && pd in mem && mem[pd].Table?
    && (forall v: nat | v < n :: Present(src, mem, pd, v))
  }

  ghost predicate Present(src: set<nat>, mem: Memory, pd: nat, v: nat) {
    var de, e := Ent(mem, pd, Dir(v)), Lookup(mem, pd, v);
    de.Pte? && de.frame in src && de.frame in mem && e.Pte? && e.frame in src && e.frame in mem
  }

  /** As long as its frames are left alone it is the same. */
  lemma SourceStays(src: set<nat>, held: set<nat>, mem: Memory, after: Memory, pd: nat, n: nat)
    requires Source(src, mem, pd, n) && src !! held && OutsideStays(held, mem, after)
    ensures Source(src, after, pd, n)
    ensures forall v: nat | v < n :: Lookup(after, pd, v) == Lookup(mem, pd, v)
    ensures forall v: nat | v < n :: PageAt(after, pd, v) == PageAt(mem, pd, v)
  {
    assert Still(mem, after, pd);
    forall v: nat | v < n
      ensures Present(src, after, pd, v) && Lookup(after, pd, v) == Lookup(mem, pd, v)
      ensures PageAt(after, pd, v) == PageAt(mem, pd, v)
    {
      assert Present(src, mem, pd, v);
      assert Still(mem, after, Ent(mem, pd, Dir(v)).frame) && Still(mem, after, Lookup(mem, pd, v).frame);
    }
  }

  /** Page u of d is a page of its own, from the free list, with the bytes and the permissions
      of page u of pd. */
  ghost predicate Copy(s: State, mem: Memory, pd: nat, d: nat, u: nat) {
    match Lookup(mem, d, u)
    case Absent => false
    case Pte(f, perm) =>
      && Lookup(s.mem, pd, u).Pte? && Lookup(s.mem, pd, u).perm == perm && f in FreeSet(s)
      && PageAt(mem, d, u) == PageAt(s.mem, pd, u)
  }

  /** From s to w the pages below v have been copied, each of them and each table at the cost of
      one free frame; no other page is mapped or changed. */
  ghost predicate Duped(pd: nat, d: nat, s: State, w: State, v: nat) {
    match w case State(mem, _, _) =>
      && Held(w) == Held(s) && FreeSet(w) <= FreeSet(s) && (forall u: nat | u < v :: Copy(s, mem, pd, d, u))
      && (forall u: nat | u >= v :: Lookup(mem, d, u) == Lookup(s.mem, d, u))
      && OutsideStays(Held(s), s.mem, mem) && Took(d, s, w, 0, v, v)
  }

  lemma NothingDuped(pd: nat, d: nat, s: State)
    ensures Duped(pd, d, s, s, 0)
  {
    TookNothing(d, s, 0);
  }

  lemma DupedMore(
      pd: nat, d: nat, s: State, w: State, x: State, y: State, f: nat, v: nat, next: nat, page: Frame, perm: nat)
    requires Duped(pd, d, s, w, v) && v < USERPAGES && next == v + 1 && TakenFor(d, w, x, f, page)
    requires Mapping(d, x, y, v, next, f, perm) && Took(d, x, y, v, next, 0)
    requires Lookup(s.mem, pd, v).Pte? && Lookup(s.mem, pd, v).perm == perm && page == PageAt(s.mem, pd, v)
    ensures Duped(pd, d, s, y, next)
  {
    assert UserFrames(v, next, f) == {f};
    assert Held(y) == Held(s);
    forall u: nat | u < next ensures Copy(s, y.mem, pd, d, u) {
      CopyStays(pd, d, s, w, x, y, f, v, next, page, perm, u);
    }
    forall g | g !in Held(s) ensures Still(s.mem, y.mem, g) {
      assert Still(s.mem, w.mem, g) && Still(x.mem, y.mem, g);
    }
    GrownTook(d, s, w, x, y, f, 0, v, next, page);
  }

  lemma CopyStays(
      pd: nat, d: nat, s: State, w: State, x: State, y: State, f: nat, v: nat, next: nat, page: Frame, perm: nat,
      u: nat)
    requires Duped(pd, d, s, w, v) && v < USERPAGES && next == v + 1 && TakenFor(d, w, x, f, page)
    requires Mapping(d, x, y, v, next, f, perm) && u < next
    requires Lookup(s.mem, pd, v).Pte? && Lookup(s.mem, pd, v).perm == perm && page == PageAt(s.mem, pd, v)
    ensures Copy(s, y.mem, pd, d, u)
  {
    if u < v {
      assert Copy(s, w.mem, pd, d, u) && PageAt(y.mem, d, u) == PageAt(w.mem, d, u);
    } else {
      assert Lookup(y.mem, d, v) == Pte(f, perm) && PageAt(y.mem, d, v) == x.mem[f];
    }
  }

  // ----- how many frames it takes -----

  /** The page tables for n pages from 0 on. */
  function Tables(n: nat): nat {
    DirEnd(0, n)
  }

  /** With so many free frames copyuvm takes a frame for a page, finds none for the page's
      table, and forgets the first. */
  ghost predicate Loses(avail: int, n: nat) {
    exists k: nat :: LosesAt(avail, n, k)
  }

  predicate LosesAt(avail: int, n: nat, k: nat) {
    NENTRIES * k < n && avail == (NENTRIES + 1) * k + 1
  }

  lemma {:induction false} NoneMissing(mem: Memory, d: nat, n: nat)
    requires n <= NENTRIES && forall i | 0 <= i < n :: !HasTable(mem, d, i)
    ensures Missing(mem, d, 0, n) == n
  {
    if n > 0 {
      NoneMissing(mem, d, n - 1);
    }
  }

  /** The kernel's rows have no tables below KERNBASE. */
  lemma KernelAbove(kmap: seq<Kmap>, i: nat)
    requires KmapOk(kmap) && Covered(kmap, |kmap|, i)
    ensures i >= Dir(USERPAGES)
  {
    var k :| 0 <= k < |kmap| && RowDir(kmap[k], i);
    assert RowOk(kmap[k]);
  }

  /** What the copy of v pages has cost. */
  lemma DupedCost(pd: nat, d: nat, s: State, w: State, kmap: seq<Kmap>, v: nat)
    requires KmapOk(kmap) && Duped(pd, d, s, w, v) && v <= USERPAGES
    requires forall i | 0 <= i < NENTRIES :: HasTable(s.mem, d, i) <==> Covered(kmap, |kmap|, i)
    ensures |w.free| + v + Tables(v) == |s.free|
    ensures v < USERPAGES && !HasTable(w.mem, d, Dir(v)) ==> v % NENTRIES == 0 && Tables(v) == v / NENTRIES
  {
    assert Tables(v) <= Dir(USERPAGES);
    forall i | 0 <= i < Dir(USERPAGES) ensures !HasTable(s.mem, d, i) {
      if HasTable(s.mem, d, i) {
        KernelAbove(kmap, i);
      }
    }
    NoneMissing(s.mem, d, Tables(v));
    if v < USERPAGES && !HasTable(w.mem, d, Dir(v)) {
      assert !(Dir(0) <= Dir(v) < DirEnd(0, v));
      if v > 0 {
        NewTableAt(v);
      }
    }
  }

  lemma NewTableAt(v: nat)
    requires v > 0 && Dir(v) >= Dir(v - 1) + 1
    ensures v % NENTRIES == 0 && Dir(v - 1) + 1 == v / NENTRIES
  {
  }

  /** The arithmetic of the three ways it can end. */
  lemma CopyEnds(avail: nat, v: nat, n: nat)
    requires v <= n
    ensures v == n && v + Tables(v) <= avail ==> n + Tables(n) <= avail && !Loses(avail, n)
    ensures v < n && avail == v + Tables(v) ==> n + Tables(n) > avail && !Loses(avail, n)
    ensures v < n && v % NENTRIES == 0 && avail == v + v / NENTRIES + 1 ==> n + Tables(n) > avail && Loses(avail, n)
  {
    var q, r := v / NENTRIES, v % NENTRIES;
    assert v == NENTRIES * q + r;
    TablesOf(v, q, r);
    TablesGrow(v, n);
    if v < n && r == 0 && avail == v + q + 1 {
      assert LosesAt(avail, n, q);
      TablesOf(v + 1, q, 1);
      TablesGrow(v + 1, n);
    }
    forall k: nat | LosesAt(avail, n, k)
      ensures !(v == n && v + Tables(v) <= avail) && !(v < n && avail == v + Tables(v))
    {
    }
  }

  lemma TablesOf(v: nat, q: nat, r: nat)
    requires v == NENTRIES * q + r && r < NENTRIES
    ensures Tables(v) == if r == 0 then q else q + 1
  {
    if v > 0 {
      if r == 0 {
        assert v - 1 == NENTRIES * (q - 1) + (NENTRIES - 1);
        assert Dir(v - 1) == q - 1;
      } else {
        assert v - 1 == NENTRIES * q + (r - 1);
        assert Dir(v - 1) == q;
      }
    }
  }

  lemma TablesGrow(v: nat, n: nat)
    requires v <= n
    ensures Tables(v) <= Tables(n)
  {
  }

  /** The pages of the kernel's rows are mapped to their frames, and no other page from KERNBASE on is. */
  ghost predicate KernelSame(mem: Memory, d: nat, kmap: seq<Kmap>) {
    && (forall k, v: nat | 0 <= k < |kmap| && kmap[k].Has(v) ::
         Lookup(mem, d, v) == Pte(kmap[k].start / PGSIZE + (v - kmap[k].virt / PGSIZE), kmap[k].perm))
    && forall v: nat | v >= USERPAGES && Lookup(mem, d, v).Pte? :: exists k :: 0 <= k < |kmap| && kmap[k].Has(v)
  }

  /** Setupkvm leaves no user page. */
  lemma OnlyKernel(mem: Memory, d: nat, kmap: seq<Kmap>)
    requires KmapOk(kmap) && KernelOnly(mem, d, kmap, |kmap|)
    ensures forall v: nat | v < USERPAGES :: Lookup(mem, d, v).Absent?
    ensures forall k, v: nat | 0 <= k < |kmap| && kmap[k].Has(v) :: v >= USERPAGES
  {
    forall k, v: nat | 0 <= k < |kmap| && kmap[k].Has(v) ensures v >= USERPAGES {
      assert RowOk(kmap[k]);
      RowPages(kmap[k], v);
    }
  }

  lemma CopyDone(pd: nat, d: nat, s: State, w: State, y: State, kmap: seq<Kmap>, v: nat, src: set<nat>)
    requires KmapOk(kmap) && KernelOnly(w.mem, d, kmap, |kmap|) && KernelTook(d, s, w, kmap, |kmap|)
    requires Duped(pd, d, w, y, v) && v <= USERPAGES && Held(w) == FreeSet(s) && FreeSet(w) <= FreeSet(s)
    requires Source(src, s.mem, pd, v) && Source(src, w.mem, pd, v) && src !! FreeSet(s)
    requires OutsideStays(FreeSet(s), s.mem, w.mem)
    requires forall u: nat | u < v :: Lookup(w.mem, pd, u) == Lookup(s.mem, pd, u)
    requires forall u: nat | u < v :: PageAt(w.mem, pd, u) == PageAt(s.mem, pd, u)
    ensures var avail := |s.free| - 1 - KernelTables(kmap, |kmap|); avail >= v + Tables(v) && !Loses(avail, v)
    ensures forall u: nat | u < v :: Copy(s, y.mem, pd, d, u)
    ensures forall u: nat | v <= u < USERPAGES :: Lookup(y.mem, d, u).Absent?
    ensures KernelSame(y.mem, d, kmap) && Source(src, y.mem, pd, v) && OutsideStays(FreeSet(s), s.mem, y.mem)
    ensures Held(y) == FreeSet(s)
  {
    hide Took, Missing, Tables, Loses, PageAt, Source;
    DupedCost(pd, d, w, y, kmap, v);
    CopyEnds(|w.free|, v, v);
    OnlyKernel(w.mem, d, kmap);
    SourceStays(src, Held(w), w.mem, y.mem, pd, v);
    OutsideTwice(FreeSet(s), s.mem, w.mem, y.mem);
    forall u: nat | u < v ensures Copy(s, y.mem, pd, d, u) {
      assert Copy(w, y.mem, pd, d, u);
    }
  }

  lemma CopyFailed(
      pd: nat, d: nat, s: State, w: State, x: State, kmap: seq<Kmap>, v: nat, n: nat, lost: set<nat>)
    requires KmapOk(kmap) && KernelTook(d, s, w, kmap, |kmap|) && Duped(pd, d, w, x, v) && v < n <= USERPAGES
    requires lost == {} ==> x.free == []
    requires lost != {} ==> |x.free| == 1 && !HasTable(x.mem, d, Dir(v))
    ensures var avail := |s.free| - 1 - KernelTables(kmap, |kmap|);
      avail >= 0 && avail < n + Tables(n) && (lost != {} <==> Loses(avail, n))
  {
    DupedCost(pd, d, w, x, kmap, v);
    CopyEnds(|w.free|, v, n);
  }

  lemma NoneLost(avail: int, n: nat)
    requires avail < 0
    ensures avail < n + Tables(n)
  {
  }

  lemma PagesBelow(sz: nat)
    requires sz <= KERNBASE
    ensures PageUp(sz) <= USERPAGES
  {
  }

  // ----- copyuvm -----

  /** One pass of copyuvm's loop. */
  method CopyPage(
      m: Machine, pd: nat, d: nat, ghost src: set<nat>, ghost w: State, v: nat, ghost next: nat, a: nat, ghost n: nat)
    returns (ok: bool, ghost lost: set<nat>)
    requires m.Ok(d) && Duped(pd, d, w, m.Now(), v) && Source(src, w.mem, pd, n) && src !! Held(w)
    requires v < n <= USERPAGES && next == v + 1 && a == v * PGSIZE && Lookup(w.mem, d, v).Absent?
    modifies m`mem, m`free, m`uses
    ensures ok ==> m.Ok(d) && Duped(pd, d, w, m.Now(), next) && lost == {}
    ensures !ok ==> PoolOk(m.lo, m.hi, m.free) && m.uses == map[] && FreeSet(m.Now()) == Held(w) - lost
    ensures !ok ==> OutsideStays(Held(w), w.mem, m.mem) && |lost| <= 1
    ensures !ok && lost == {} ==> old(m.free) == []
    ensures !ok && lost != {} ==> |old(m.free)| == 1 && !HasTable(old(m.mem), d, Dir(v))
  {
    lost := {};
    ghost var x := m.Now();
    SourceStays(src, Held(w), w.mem, m.mem, pd, n);
    assert Present(src, m.mem, pd, v);
    var e := Lookup(m.mem, pd, v);
    var f := m.Kalloc();
    if f.None? {
      m.Freevm(d);
      OutsideTwice(Held(w), w.mem, x.mem, m.mem);
      return false, {};
    }
    TakenFrame(m.lo, m.hi, d, x, x.mem[e.frame]);
    m.mem := m.mem[f.value := m.mem[e.frame]];
    ghost var y := m.Now();
    ok := m.MapNew(d, v, next, a, f.value, e.perm);
    if ok {
      DupedMore(pd, d, w, x, y, m.Now(), f.value, v, next, x.mem[e.frame], e.perm);
    } else {
      ghost var z := m.Now();
      m.Freevm(d);
      lost := {f.value};
      CopyUndone(d, w, x, y, z, m.Now(), f.value, x.mem[e.frame], e.perm, v);
    }
  }

  /** The frame taken for the page is nowhere any more. */
  lemma CopyUndone(
      d: nat, w: State, x: State, y: State, z: State, u: State, f: nat, page: Frame, perm: nat, v: nat)
    requires Held(x) == Held(w) && OutsideStays(Held(w), w.mem, x.mem) && TakenFor(d, x, y, f, page)
    requires Mapping(d, y, z, v, v, f, perm) && Took(d, y, z, v, v, 0) && z.free == []
    requires !HasTable(z.mem, d, Dir(v)) && Dir(v) < NENTRIES
    requires FreeSet(u) == Held(z) && OutsideStays(Held(z), z.mem, u.mem)
    ensures FreeSet(u) == Held(w) - {f} && OutsideStays(Held(w), w.mem, u.mem)
    ensures |x.free| == 1 && !HasTable(x.mem, d, Dir(v))
  {
    assert UserFrames(v, v, f) == {} && Held(z) == Held(y);
    NotHeld(y, f);
    assert HasTable(y.mem, d, Dir(v)) == HasTable(z.mem, d, Dir(v));
    forall g | g !in Held(w) ensures Still(w.mem, u.mem, g) {
      assert Still(w.mem, x.mem, g) && Still(y.mem, z.mem, g) && Still(z.mem, u.mem, g);
    }
  }

  /** copyuvm for a parent whose pages up to sz are present: with frames for the directory, the
      kernel's tables, the pages and their tables it is an address space with the same bytes and
      permissions in pages of its own, and the kernel's map. Otherwise every frame is back but
      one, and that one is lost, exactly when the last frame there was went to a page whose table had
      none. The parent is as it was. */
  method Copyuvm(m: Machine, pd: nat, sz: nat, kmap: seq<Kmap>, ghost src: set<nat>)
    returns (r: Option<nat>, ghost lost: set<nat>)
    requires 0 < m.lo && PoolOk(m.lo, m.hi, m.free) && m.uses == map[] && KmapOk(kmap) && sz <= KERNBASE
    requires Source(src, m.mem, pd, PageUp(sz)) && src !! FreeSet(m.Now())
    modifies m`mem, m`free, m`uses
    ensures Source(src, m.mem, pd, PageUp(sz)) && OutsideStays(FreeSet(old(m.Now())), old(m.mem), m.mem)
    ensures var avail := |old(m.free)| - 1 - KernelTables(kmap, |kmap|);
      && (r.Some? <==> avail >= PageUp(sz) + Tables(PageUp(sz)))
      && (lost != {} <==> avail >= 0 && Loses(avail, PageUp(sz)))
    ensures r.Some? ==> m.Ok(r.value) && Held(m.Now()) == FreeSet(old(m.Now()))
    ensures r.Some? ==> forall u: nat | u < PageUp(sz) :: Copy(old(m.Now()), m.mem, pd, r.value, u)
    ensures r.Some? ==> forall u: nat | PageUp(sz) <= u < USERPAGES :: Lookup(m.mem, r.value, u).Absent?
    ensures r.Some? ==> KernelSame(m.mem, r.value, kmap)
    ensures r.None? ==> PoolOk(m.lo, m.hi, m.free) && m.uses == map[]
    ensures r.None? ==> FreeSet(m.Now()) == FreeSet(old(m.Now())) - lost && |lost| <= 1
  {
    hide Source, Copy, Duped, KernelSame, KernelOnly, KernelTook, KmapOk, VmOk, PoolOk, OutsideStays, Loses, Tables;
    ghost var s, n := m.Now(), PageUp(sz);
    lost := {};
    r := m.Setupkvm(kmap);
    SourceStays(src, FreeSet(s), s.mem, m.mem, pd, n);
    if r.None? {
      NoneLost(|s.free| - 1 - KernelTables(kmap, |kmap|), n);
      return;
    }
    var d := r.value;
    ghost var w := m.Now();
    NothingDuped(pd, d, w);
    OnlyKernel(w.mem, d, kmap);
    PagesBelow(sz);
    var a, v := 0, 0;
    while a < sz
      invariant a == v * PGSIZE && v <= n && m.Ok(d) && Duped(pd, d, w, m.Now(), v) && lost == {}
      decreases sz - a
    {
      PageAtAddress(a, v, sz);
      var next := v + 1;
      ghost var x := m.Now();
      var ok;
      ok, lost := CopyPage(m, pd, d, src, w, v, next, a, n);
      if !ok {
        OutsideTwice(FreeSet(s), s.mem, w.mem, m.mem);
        SourceStays(src, FreeSet(s), s.mem, m.mem, pd, n);
        CopyFailed(pd, d, s, w, x, kmap, v, n, lost);
        return None, lost;
      }
      a, v := a + PGSIZE, next;
    }
    LastCleared(a, v, sz);
    CopyDone(pd, d, s, w, m.Now(), kmap, v, src);
  }
}
