/** The frame pool and the operations on one address space's page table. */
module Vm {
  import opened Blocks
  import opened PageTables

  const PGSIZE := 4096
  const KERNBASE := 0x8000_0000
  /** Pages of a 32-bit address space. */
  const ALLPAGES := 0x10_0000

  function PageUp(a: nat): nat {
    (a + PGSIZE - 1) / PGSIZE
  }

  datatype MapResult = Mapped | NoMemory | Remap

  /** The frames from f on of those of the pages v .. end - 1 that are user pages. */
  ghost function UserFrames(v: nat, end: nat, f: nat): set<nat> {
    if end <= v then {}
    else if end - 1 < USERPAGES then UserFrames(v, end - 1, f) + {f + (end - 1 - v)}
    else UserFrames(v, end - 1, f)
  }

  /** The pages v .. end - 1 are mapped to the frames from f on, of which those for user
      pages were in nobody's hands. */
  ghost predicate Mapping(pd: nat, s: State, w: State, v: nat, end: nat, f: nat, perm: nat) {
    match w case State(mem, _, _) =>
      && Held(w) == Held(s) + UserFrames(v, end, f) && FreeSet(w) <= FreeSet(s)
      && (forall u: nat :: Lookup(mem, pd, u) == if v <= u < end then Pte(f + (u - v), perm) else Lookup(s.mem, pd, u))
      && (forall u | 0 <= u < USERPAGES && !(v <= u < end) :: PageAt(mem, pd, u) == PageAt(s.mem, pd, u))
      && (forall u | v <= u < end && u < USERPAGES && f + (u - v) in s.mem ::
            PageAt(mem, pd, u) == s.mem[f + (u - v)])
      && forall g {:trigger Still(s.mem, mem, g)} | g !in Held(w) :: Still(s.mem, mem, g)
  }

  /** Frames it takes to add the pages from .. to - 1: one each, and one for each table missing. */
  ghost function Needed(pd: nat, s: State, from: nat, to: nat): nat
    requires from <= to
  {
    to - from + Missing(s.mem, pd, Dir(from), DirEnd(from, to))
  }

  /** Frames outside the set are as before. */
  ghost predicate OutsideStays(held: set<nat>, before: Memory, after: Memory) {
    forall g {:trigger Still(before, after, g)} | g !in held :: Still(before, after, g)
  }

  lemma OutsideTwice(held: set<nat>, a: Memory, b: Memory, c: Memory)
    requires OutsideStays(held, a, b) && OutsideStays(held, b, c)
    ensures OutsideStays(held, a, c)
  {
    forall g | g !in held ensures Still(a, c, g) {
      assert Still(a, b, g) && Still(b, c, g);
    }
  }

  /** Pages from, from + 1, ... below to are unmapped; all other pages and their contents are as before. */
  ghost predicate Cleared(pd: nat, s: State, w: State, from: nat, to: nat) {
    match w case State(mem, _, _) =>
      && Held(w) == Held(s)
      && (forall u: nat :: Lookup(mem, pd, u) == if from <= u < to then Absent else Lookup(s.mem, pd, u))
      && (forall u | 0 <= u < USERPAGES && !(from <= u < to) :: PageAt(mem, pd, u) == PageAt(s.mem, pd, u))
      && forall g {:trigger Still(s.mem, mem, g)} | g !in Held(w) :: Still(s.mem, mem, g)
  }

  /** The pages from, from + 1, ... below to are new zeroed user pages in frames that were
      free; all other pages and their contents are as before. */
  ghost predicate Grown(pd: nat, s: State, w: State, from: nat, to: nat) {
    match w case State(mem, _, _) =>
      && Held(w) == Held(s) && FreeSet(w) <= FreeSet(s)
      && (forall u: nat | from <= u < to :: NewPage(s, mem, pd, u))
      && (forall u: nat | !(from <= u < to) :: Lookup(mem, pd, u) == Lookup(s.mem, pd, u))
      && (forall u | 0 <= u < USERPAGES && !(from <= u < to) :: PageAt(mem, pd, u) == PageAt(s.mem, pd, u))
      && forall g {:trigger Still(s.mem, mem, g)} | g !in Held(w) :: Still(s.mem, mem, g)
  }

  /** The pages from .. v - 1 are new, each of them and each table added at the cost of one free frame. */
  ghost predicate GrownSoFar(pd: nat, s: State, w: State, from: nat, v: nat) {
    from <= v && Grown(pd, s, w, from, v) && Took(pd, s, w, from, v, v - from)
  }

  ghost predicate Unmapped(pd: nat, s: State, from: nat, to: nat) {
    forall u: nat | from <= u < to :: Lookup(s.mem, pd, u).Absent?
  }

  /** From w to x frame f was taken off the free list and zeroed, and nothing else changed. */
  ghost predicate Taken(pd: nat, w: State, x: State, f: nat) {
    TakenFor(pd, w, x, f, ZeroPage())
  }

  /** The same with the frame filled with what is on page. */
  ghost predicate TakenFor(pd: nat, w: State, x: State, f: nat, page: Frame) {
    match x case State(mem, free, uses) =>
      && w.free != [] && f == w.free[0] && free == w.free[1..] && uses == w.uses && mem == w.mem[f := page]
      && Loose(x, f) && Held(w) == Held(x) + {f} && FreeSet(w) == FreeSet(x) + {f}
      && (forall u :: Lookup(mem, pd, u) == Lookup(w.mem, pd, u))
      && (forall i :: Ent(mem, pd, i) == Ent(w.mem, pd, i))
      && forall u | 0 <= u < USERPAGES :: PageAt(mem, pd, u) == PageAt(w.mem, pd, u)
  }

  ghost predicate NewPage(s: State, mem: Memory, pd: nat, u: nat) {
    match Lookup(mem, pd, u)
    case Absent => false
    case Pte(f, perm) => perm == PTE_W + PTE_U && f in FreeSet(s) && PageAt(mem, pd, u) == ZeroPage()
  }

  function Junk(): Frame {
    Page(seq(4096, i => 1))
  }

  class Machine {
    const lo: nat
    const hi: nat
    var mem: Memory
    var free: seq<nat>
    ghost var uses: Uses

    ghost function Now(): State
      reads this`mem, this`free, this`uses
    {
      State(mem, free, uses)
    }

    ghost predicate Ok(pd: nat)
      reads this`mem, this`free, this`uses
    {
      match Now() case State(m, f, u) => VmOk(lo, hi, pd, Now())
    }

    /** kalloc. */
    method Kalloc() returns (f: Option<nat>)
      modifies this`free
      ensures f.None? ==> free == [] == old(free)
      ensures f.Some? ==> old(free) != [] && f.value == old(free)[0] && free == old(free)[1..]
    {
      if free == [] {
        return None;
      }
      f := Some(free[0]);
      free := free[1..];
    }

    /** kfree; it panics on a frame outside the pool. */
    method Kfree(f: nat) returns (panicked: bool)
      modifies this`mem, this`free
      ensures panicked <==> !(lo <= f < hi)
      ensures mem == if panicked then old(mem) else old(mem)[f := Junk()]
      ensures free == if panicked then old(free) else [f] + old(free)
    {
      if !(lo <= f < hi) {
        return true;
      }
      mem := mem[f := Junk()];
      free := [f] + free;
      return false;
    }

    /** walkpgdir: the frame of the table that holds page v's entry. */
    method Walkpgdir(pd: nat, v: nat, alloc: bool) returns (t: Option<nat>)
      requires Ok(pd) && Dir(v) < NENTRIES
      modifies this`mem, this`free, this`uses
      ensures Ok(pd) && OnlyTables(pd, old(Now()), Now())
      ensures Took(pd, old(Now()), Now(), v, if t.Some? then v + 1 else v, 0)
      ensures t.Some? ==>
        Ent(mem, pd, Dir(v)).Pte? && Ent(mem, pd, Dir(v)).frame == t.value && t.value in mem && mem[t.value].Table?
      ensures t.None? ==> Ent(mem, pd, Dir(v)).Absent? && Now() == old(Now()) && (alloc ==> free == [])
      ensures !alloc ==> Now() == old(Now())
    {
      var de := Ent(mem, pd, Dir(v));
      if de.Pte? {
        assert TableOk(mem, uses, de.frame, Dir(v));
        return Some(de.frame);
      }
      if !alloc {
        return None;
      }
      ghost var s := Now();
      var f := Kalloc();
      if f.None? {
        return None;
      }
      TableAdded(s, lo, hi, pd, Dir(v));
      mem := mem[f.value := EmptyTable()];
      mem := WithEnt(mem, pd, Dir(v), Pte(f.value, PTE_W + PTE_U));
      uses := uses[f.value := Tab(Dir(v))];
      return f;
    }

    /** mappages: the pages that hold va .. va + size - 1, to frames from pa on; end is the
        first page left alone. */
    method Mappages(pd: nat, va: nat, size: nat, pa: nat, perm: nat) returns (r: MapResult, ghost end: nat)
      requires Ok(pd) && 0 < size && va + size <= 0x1_0000_0000 && pa % PGSIZE == 0
      requires FramesLoose(lo, hi, Now(), va / PGSIZE, LastPage(va, size), pa / PGSIZE)
      modifies this`mem, this`free, this`uses
      ensures Ok(pd) && Mapping(pd, old(Now()), Now(), va / PGSIZE, end, pa / PGSIZE, perm)
      ensures Took(pd, old(Now()), Now(), va / PGSIZE, end, 0)
      ensures va / PGSIZE <= end && if r == Mapped then end == LastPage(va, size) + 1 else end <= LastPage(va, size)
      ensures r == NoMemory ==> free == [] && !HasTable(mem, pd, Dir(end))
      ensures r == Remap ==> Lookup(old(mem), pd, end).Pte?
      ensures forall u | va / PGSIZE <= u < end :: UserReads(mem, pd, u) <==> HasU(perm)
      ensures forall u | va / PGSIZE <= u < end :: UserWrites(mem, pd, u) <==> HasU(perm) && HasW(perm)
    {
      hide HasU, HasW, UserReads, UserWrites, VmOk;
      PageBounds(va, size);
      r, end := MapPages(pd, va / PGSIZE, LastPage(va, size), pa / PGSIZE, perm);
      forall u | va / PGSIZE <= u < end
        ensures UserReads(mem, pd, u) <==> HasU(perm)
        ensures UserWrites(mem, pd, u) <==> HasU(perm) && HasW(perm)
      {
        LeafDecides(lo, hi, pd, Now(), u);
      }
    }

    /** mappages' loop over the pages v .. last. */
    method MapPages(pd: nat, v: nat, last: nat, f0: nat, perm: nat) returns (r: MapResult, ghost end: nat)
      requires Ok(pd) && v <= last < ALLPAGES && FramesLoose(lo, hi, Now(), v, last, f0)
      modifies this`mem, this`free, this`uses
      ensures Ok(pd) && Mapping(pd, old(Now()), Now(), v, end, f0, perm) && Took(pd, old(Now()), Now(), v, end, 0)
      ensures v <= end && if r == Mapped then end == last + 1 else end <= last
      ensures r == NoMemory ==> free == [] && !HasTable(mem, pd, Dir(end))
      ensures r == Remap ==> Lookup(old(mem), pd, end).Pte?
    {
      var a, f := v, f0;
      ghost var s := Now();
      NothingMapped(pd, s, v, f0, perm);
      end := v;
      while true
        invariant Ok(pd) && end == a && f == f0 + (a - v) && v <= a <= last
        invariant Mapping(pd, s, Now(), v, a, f0, perm) && Took(pd, s, Now(), v, a, 0)
        decreases last - a
      {
        var next := a + 1;
        r := MapPage(pd, s, v, f0, a, next, f, perm, last);
        if r != Mapped {
          break;
        }
        end := next;
        if a == last {
          break;
        }
        a, f := next, f + 1;
      }
    }

    /** One pass of mappages' loop, for page a. */
    method MapPage(
        pd: nat, ghost s: State, ghost v: nat, ghost f0: nat, a: nat, ghost next: nat,
        f: nat, perm: nat, ghost last: nat)
      returns (r: MapResult)
      requires Ok(pd) && Mapping(pd, s, Now(), v, a, f0, perm) && Took(pd, s, Now(), v, a, 0)
      requires f == f0 + (a - v) && v <= a <= last < ALLPAGES && next == a + 1 && FramesLoose(lo, hi, s, v, last, f0)
      modifies this`mem, this`free, this`uses
      ensures Ok(pd) && r == Mapped ==> Mapping(pd, s, Now(), v, next, f0, perm) && Took(pd, s, Now(), v, next, 0)
      ensures Ok(pd) && r != Mapped ==> Mapping(pd, s, Now(), v, a, f0, perm) && Took(pd, s, Now(), v, a, 0)
      ensures Ok(pd)
      ensures r == NoMemory ==> free == [] && !HasTable(mem, pd, Dir(a))
      ensures r == Remap ==> Lookup(s.mem, pd, a).Pte?
    {
      ghost var w := Now();
      var t := Walkpgdir(pd, a, true);
      MappingGoesOn(pd, s, w, Now(), v, a, f0, perm);
      if t.None? {
        return NoMemory;
      }
      if Ent(mem, t.value, Idx(a)).Pte? {
        WasMapped(pd, s, w, Now(), v, a, f0, perm);
        return Remap;
      }
      TookNext(pd, s, w, Now(), v, a, next, 0);
      SetLeaf(pd, s, v, f0, a, next, f, perm, t.value, last);
      return Mapped;
    }

    /** *pte = pa | perm | PTE_P, for page a. */
    method SetLeaf(
        pd: nat, ghost s: State, ghost v: nat, ghost f0: nat, a: nat, ghost next: nat, f: nat, perm: nat, t: nat,
        ghost last: nat)
      requires Ok(pd) && Mapping(pd, s, Now(), v, a, f0, perm) && Took(pd, s, Now(), v, next, 0)
      requires f == f0 + (a - v) && v <= a <= last && next == a + 1 && FramesLoose(lo, hi, s, v, last, f0)
      requires Ent(mem, pd, Dir(a)).Pte? && Ent(mem, pd, Dir(a)).frame == t && t in mem && mem[t].Table?
      requires Lookup(mem, pd, a).Absent?
      modifies this`mem, this`uses
      ensures Ok(pd) && Mapping(pd, s, Now(), v, next, f0, perm) && Took(pd, s, Now(), v, next, 0)
    {
      ghost var w := Now();
      LeafStep(lo, hi, pd, s, w, v, a, next, f, f0, perm, last);
      mem := WithEnt(mem, t, Idx(a), Pte(f, perm));
      if a < USERPAGES {
        uses := uses[f := User(a)];
      }
      assert Now() == WithLeaf(w, pd, a, f, perm);
    }

    /** allocuvm over pages that are not mapped: with a free frame for each of them and for
        each table missing they are all new and zeroed; otherwise the mapping is as before
        and every frame taken for a page is back. */
    method Allocuvm(pd: nat, oldsz: nat, newsz: nat) returns (r: nat)
      requires Ok(pd) && forall u: nat | PageUp(oldsz) <= u < PageUp(newsz) :: Lookup(mem, pd, u).Absent?
      modifies this`mem, this`free, this`uses
      ensures Ok(pd)
      ensures newsz >= KERNBASE ==> r == 0 && Now() == old(Now())
      ensures newsz < KERNBASE && newsz < oldsz ==> r == oldsz && Now() == old(Now())
      ensures oldsz <= newsz < KERNBASE ==>
        if Needed(pd, old(Now()), PageUp(oldsz), PageUp(newsz)) <= |old(free)|
        then
          && r == newsz && Grown(pd, old(Now()), Now(), PageUp(oldsz), PageUp(newsz))
          && forall u | PageUp(oldsz) <= u < PageUp(newsz) :: UserWrites(mem, pd, u)
        else r == 0 && Cleared(pd, old(Now()), Now(), 0, 0)
    {
      if newsz >= KERNBASE {
        return 0;
      }
      if newsz < oldsz {
        return oldsz;
      }
      ghost var s, from, to := Now(), PageUp(oldsz), PageUp(newsz);
      var a, v := PageUp(oldsz) * PGSIZE, PageUp(oldsz);
      NothingGrown(pd, s, from);
      while a < newsz
        invariant a == v * PGSIZE && from <= v <= to && Ok(pd) && GrownSoFar(pd, s, Now(), from, v)
        decreases newsz - a
      {
        PageAtAddress(a, v, newsz);
        var next := v + 1;
        var ok := AddPage(pd, s, from, v, next, a, newsz, oldsz);
        if !ok {
          return 0;
        }
        a, v := a + PGSIZE, next;
      }
      LastCleared(a, v, newsz);
      GrownFits(pd, s, Now(), from, v, to);
      forall u | from <= u < to ensures UserWrites(mem, pd, u) {
        NewIsWritable(lo, hi, pd, s, Now(), from, to, u);
      }
      return newsz;
    }

    /** One pass of allocuvm's loop: a zeroed frame mapped at address a, or everything undone. */
    method AddPage(
        pd: nat, ghost s: State, ghost from: nat, v: nat, ghost next: nat, a: nat, newsz: nat, oldsz: nat)
      returns (ok: bool)
      requires Ok(pd) && GrownSoFar(pd, s, Now(), from, v) && next == v + 1
      requires from == PageUp(oldsz) <= v < PageUp(newsz) && oldsz <= newsz < KERNBASE
      requires a == v * PGSIZE && v < USERPAGES && Unmapped(pd, s, from, PageUp(newsz))
      modifies this`mem, this`free, this`uses
      ensures Ok(pd)
      ensures ok ==> GrownSoFar(pd, s, Now(), from, next)
      ensures !ok ==> Cleared(pd, s, Now(), 0, 0) && Needed(pd, s, from, PageUp(newsz)) > |s.free|
    {
      ghost var w, to := Now(), PageUp(newsz);
      var f := TakePage(pd);
      if f.None? {
        NoPageLeft(pd, s, w, from, v, to);
        var _ := Deallocuvm(pd, newsz, oldsz);
        GrownUndone(pd, s, w, Now(), from, v, to);
        return false;
      }
      ghost var x := Now();
      NotMappedYet(pd, s, w, x, f.value, from, v, to);
      ok := MapNew(pd, v, next, a, f.value, PTE_W + PTE_U);
      if ok {
        GrownMore(pd, s, w, x, Now(), f.value, from, v, next);
      } else {
        NoTableLeft(pd, s, w, x, Now(), f.value, from, v, to);
        GiveBack(pd, w, x, f.value, newsz, oldsz, v);
        GrownUndone(pd, s, w, Now(), from, v, to);
      }
    }

    /** mappages of one new user page. */
    method MapNew(pd: nat, ghost v: nat, ghost next: nat, a: nat, f: nat, perm: nat) returns (ok: bool)
      requires Ok(pd) && a == v * PGSIZE && v < USERPAGES && next == v + 1 && Lookup(mem, pd, v).Absent?
      requires Loose(Now(), f) && lo <= f < hi
      modifies this`mem, this`free, this`uses
      ensures Ok(pd)
      ensures ok ==>
        Mapping(pd, old(Now()), Now(), v, next, f, perm) && Took(pd, old(Now()), Now(), v, next, 0)
      ensures !ok ==> Mapping(pd, old(Now()), Now(), v, v, f, perm) && Took(pd, old(Now()), Now(), v, v, 0)
      ensures !ok ==> free == [] && !HasTable(mem, pd, Dir(v))
    {
      OnePage(a, v, f);
      OneFrame(lo, hi, Now(), v, f);
      var r; ghost var end;
      r, end := Mappages(pd, a, PGSIZE, f * PGSIZE, perm);
      assert end == if r == Mapped then next else v;
      ok := r == Mapped;
    }

    /** kalloc and memset. */
    method TakePage(pd: nat) returns (f: Option<nat>)
      requires Ok(pd)
      modifies this`mem, this`free
      ensures Ok(pd)
      ensures f.None? ==> free == [] && Now() == old(Now())
      ensures f.Some? ==> lo <= f.value < hi && Taken(pd, old(Now()), Now(), f.value)
    {
      ghost var w := Now();
      f := Kalloc();
      if f.Some? {
        mem := mem[f.value := ZeroPage()];
        TakenFrame(lo, hi, pd, w, ZeroPage());
      }
    }

    /** deallocuvm, and kfree of the frame that could not be mapped. */
    method GiveBack(pd: nat, ghost w: State, ghost x: State, f: nat, newsz: nat, oldsz: nat, ghost v: nat)
      requires Ok(pd) && Taken(pd, w, x, f) && lo <= f < hi && newsz <= KERNBASE && oldsz <= newsz
      requires Mapping(pd, x, Now(), v, v, f, PTE_W + PTE_U)
      modifies this`mem, this`free, this`uses
      ensures Ok(pd) && Cleared(pd, w, Now(), PageUp(oldsz), PageUp(newsz))
    {
      ghost var y := Now();
      var _ := Deallocuvm(pd, newsz, oldsz);
      ghost var z := Now();
      var panicked := Kfree(f);
      BackAgain(lo, hi, pd, w, x, y, z, f, PageUp(oldsz), v, PageUp(newsz));
    }

    /** deallocuvm: the pages from PGROUNDUP(newsz) up to oldsz are unmapped and their frames
        freed, just as if every page had been looked at. */
    method Deallocuvm(pd: nat, oldsz: nat, newsz: nat) returns (r: nat)
      requires Ok(pd) && oldsz <= KERNBASE
      modifies this`mem, this`free, this`uses
      ensures r == if newsz >= oldsz then oldsz else newsz
      ensures Ok(pd) && Cleared(pd, old(Now()), Now(), PageUp(newsz), PageUp(oldsz))
    {
      if newsz >= oldsz {
        NothingCleared(pd, Now(), PageUp(newsz), PageUp(oldsz));
        return oldsz;
      }
      ghost var s, from, to := Now(), PageUp(newsz), PageUp(oldsz);
      var a := PageUp(newsz) * PGSIZE;
      var v := PageUp(newsz);
      NothingCleared(pd, s, from, from);
      while a < oldsz
        invariant a == v * PGSIZE && from <= v && Ok(pd) && Cleared(pd, s, Now(), from, Least(v, to))
        decreases oldsz - a
      {
        PageAtAddress(a, v, oldsz);
        var t := Walkpgdir(pd, v, false);
        if t.None? {
          ClearedToo(pd, s, Now(), from, v, to);
          a := (Dir(v) + 1) * NENTRIES * PGSIZE - PGSIZE;
          v := (Dir(v) + 1) * NENTRIES - 1;
        } else if Ent(mem, t.value, Idx(v)).Pte? {
          Unmap(pd, s, from, v, t.value);
        } else {
          ClearedOne(pd, s, Now(), from, v);
        }
        a, v := a + PGSIZE, v + 1;
      }
      LastCleared(a, v, oldsz);
      return newsz;
    }

    /** kfree of the page's frame, and *pte = 0. */
    method Unmap(pd: nat, ghost s: State, ghost from: nat, v: nat, t: nat)
      requires Ok(pd) && from <= v < USERPAGES && Cleared(pd, s, Now(), from, v)
      requires Ent(mem, pd, Dir(v)).Pte? && Ent(mem, pd, Dir(v)).frame == t && t in mem && mem[t].Table?
      requires Lookup(mem, pd, v).Pte?
      modifies this`mem, this`free, this`uses
      ensures Ok(pd) && Cleared(pd, s, Now(), from, v + 1)
    {
      ghost var w := Now();
      var f := Ent(mem, t, Idx(v)).frame;
      DropLeaf(w, lo, hi, pd, v, Junk());
      UnmapStep(lo, hi, pd, s, w, from, v);
      FreedThenCleared(w.mem, t, f, Idx(v));
      var panicked := Kfree(f);
      assert !panicked;
      mem := WithEnt(mem, t, Idx(v), Absent);
      uses := uses - {f};
      assert Now() == WithoutLeaf(w, pd, v, Junk());
    }

    /** freevm: every frame of the address space is back on the free list, once. */
    method Freevm(pd: nat)
      requires Ok(pd)
      modifies this`mem, this`free, this`uses
      ensures uses == map[] && PoolOk(lo, hi, free) && FreeSet(Now()) == Held(old(Now()))
      ensures OutsideStays(Held(old(Now())), old(mem), mem)
    {
      ghost var s := Now();
      var _ := Deallocuvm(pd, KERNBASE, 0);
      NoUserPages(lo, hi, pd, s, Now());
      var dir := mem[pd].ptes;
      var i := 0;
      while i < NENTRIES
        invariant 0 <= i <= NENTRIES && Tearing(lo, hi, pd, dir, i, Now()) && Held(Now()) == Held(s)
        invariant OutsideStays(Held(s), s.mem, mem)
      {
        var next := i + 1;
        ghost var was := mem;
        FreeTable(pd, dir, i, next);
        OutsideTwice(Held(s), s.mem, was, mem);
        i := next;
      }
      ghost var was := mem;
      assert pd in Held(s);
      TornDown(lo, hi, pd, dir, Now());
      var panicked := Kfree(pd);
      assert !panicked;
      OutsideTwice(Held(s), s.mem, was, mem);
      uses := map[];
    }

    /** One pass of freevm's loop. */
    method FreeTable(pd: nat, dir: Entries, i: nat, ghost next: nat)
      requires i < NENTRIES && next == i + 1 && Tearing(lo, hi, pd, dir, i, Now())
      modifies this`mem, this`free, this`uses
      ensures Tearing(lo, hi, pd, dir, next, Now()) && Held(Now()) == Held(old(Now()))
      ensures OutsideStays(Held(old(Now())), old(mem), mem)
    {
      if dir[i].Pte? {
        assert UsedAs(uses, dir[i].frame, Tab(i));
        TornOne(lo, hi, pd, dir, i, next, Now(), Junk());
        var panicked := Kfree(dir[i].frame);
        assert !panicked;
        uses := uses - {dir[i].frame};
      } else {
        TornNone(lo, hi, pd, dir, i, next, Now());
      }
    }

    /** freerange: every whole page between the two addresses goes into the pool. */
    method Freerange(vstart: nat, vend: nat)
      requires PoolOk(lo, hi, free) && lo <= PageUp(vstart) && vend / PGSIZE <= hi
      requires forall f | PageUp(vstart) <= f < vend / PGSIZE :: f !in FreeSet(Now())
      modifies this`mem, this`free
      ensures PoolOk(lo, hi, free)
      ensures forall f :: f in FreeSet(Now()) <==> f in FreeSet(old(Now())) || PageUp(vstart) <= f < vend / PGSIZE
    {
      var p := PageUp(vstart);
      while (p + 1) * PGSIZE <= vend
        invariant PageUp(vstart) <= p && p <= Upper(vend / PGSIZE, PageUp(vstart))
        invariant PoolOk(lo, hi, free)
        invariant forall f :: f in FreeSet(Now()) <==> f in FreeSet(old(Now())) || PageUp(vstart) <= f < p
        decreases vend - p * PGSIZE
      {
        WholePage(p, vend);
        ghost var s := Now();
        PoolGrows(lo, hi, s, p);
        var panicked := Kfree(p);
        assert !panicked && FreeSet(Now()) == FreeSet(s) + {p};
        p := p + 1;
      }
    }

    /** clearpteu: user code may no longer use page v, and nothing else changes; it panics
        exactly when there is no table for the page. */
    method Clearpteu(pd: nat, v: nat) returns (panicked: bool)
      requires Ok(pd) && Dir(v) < NENTRIES
      modifies this`mem, this`free, this`uses
      ensures Ok(pd) && (panicked <==> !HasTable(old(mem), pd, Dir(v)))
      ensures panicked ==> Now() == old(Now())
      ensures !panicked ==> UserBarred(pd, old(Now()), Now(), v) && !UserReads(mem, pd, v)
    {
      ghost var s := Now();
      var t := Walkpgdir(pd, v, false);
      if t.None? {
        return true;
      }
      var e := Ent(mem, t.value, Idx(v));
      if e.Pte? {
        PermChanged(s, lo, hi, pd, v);
        mem := WithEnt(mem, t.value, Idx(v), Pte(e.frame, WithoutU(e.perm)));
      }
      return false;
    }

    /** exec's user stack: two new pages behind the program, of which user code may not use the
        first; 0 exactly when there is no room for them below KERNBASE or too few frames. */
    method MakeStack(pd: nat, size: nat) returns (sz: nat)
      requires Ok(pd) && WholePages(mem, pd)
      requires forall u: nat | PageUp(size) <= u < PageUp(size) + 2 :: Lookup(mem, pd, u).Absent?
      modifies this`mem, this`free, this`uses
      ensures Ok(pd) && WholePages(mem, pd)
      ensures sz == 0 <==>
        || (PageUp(size) + 2) * PGSIZE >= KERNBASE
        || Needed(pd, old(Now()), PageUp(size), PageUp(size) + 2) > |old(free)|
      ensures sz != 0 ==> sz == (PageUp(size) + 2) * PGSIZE && StackAt(mem, pd, PageUp(size) + 2)
      ensures forall u | 0 <= u < USERPAGES && !(sz != 0 && PageUp(size) <= u < PageUp(size) + 2) ::
        Lookup(mem, pd, u) == Lookup(old(mem), pd, u) && PageAt(mem, pd, u) == PageAt(old(mem), pd, u)
    {
      ghost var s := Now();
      var first := PageUp(size);
      hide WholePages, VmOk, UserBarred, UserWrites, UserReads, StackAt, Grown, Cleared;
      StackBounds(first);
      sz := Allocuvm(pd, first * PGSIZE, first * PGSIZE + 2 * PGSIZE);
      if sz == 0 {
        SamePagesWhole(pd, s, Now());
        return;
      }
      ghost var w := Now();
      NewPagesWhole(lo, hi, pd, s, w, first, first + 2);
      var panicked := Clearpteu(pd, sz / PGSIZE - 2);
      StackMade(pd, s, w, Now(), first);
    }

    /** exec's pushing of a string: it is on the stack page in full, or the answer is -1 and
        the page in front of the stack is as it was. */
    method PushString(pd: nat, top: nat, sp: nat, p: seq<int>) returns (r: int, sp': nat)
      requires Ok(pd) && WholePages(mem, pd) && 2 <= top && top * PGSIZE < KERNBASE && StackAt(mem, pd, top)
      requires (top - 1) * PGSIZE <= sp <= top * PGSIZE && 0 < |p| <= sp
      requires forall v: nat | v < top :: HasTable(mem, pd, Dir(v))
      modifies this`mem, this`free, this`uses
      ensures Ok(pd) && WholePages(mem, pd) && sp' == WordBelow(sp, |p|)
      ensures r == (if (top - 1) * PGSIZE <= sp' then 0 else -1)
      ensures r == 0 ==> Copied(pd, old(Now()), Now(), sp', p, |p|)
      ensures PageAt(mem, pd, top - 2) == PageAt(old(mem), pd, top - 2)
    {
      sp' := WordBelow(sp, |p|);
      ghost var s, done := Now(), 0;
      hide VmOk, Copied, WholePages, StackAt, UserRange, HasTable, Ent, WordBelow;
      OnStack(mem, pd, top, sp, |p|);
      TablesBelow(mem, pd, top, sp' + |p|);
      r, done := Copyout(pd, sp', p);
      GuardKept(pd, s, Now(), top, sp', p, done);
    }

    /** uva2ka: the frame of user page v, if user code may use it. */
    method Uva2ka(pd: nat, v: nat) returns (f: Option<nat>)
      requires Ok(pd) && Dir(v) < NENTRIES && Ent(mem, pd, Dir(v)).Pte?
      modifies this`mem, this`free, this`uses
      ensures Now() == old(Now())
      ensures f == if UserPage(mem, pd, v) then Some(Lookup(mem, pd, v).frame) else None
    {
      var t := Walkpgdir(pd, v, false);
      var e := Ent(mem, t.value, Idx(v));
      return if e.Pte? && HasU(e.perm) then Some(e.frame) else None;
    }

    /** copyout of p to address va. -1 leaves what lies on the pages before the first that
        user code may not use. */
    method Copyout(pd: nat, va: nat, p: seq<int>) returns (r: int, ghost done: nat)
      requires Ok(pd) && va + |p| <= KERNBASE && WholePages(mem, pd)
      requires forall v | va / PGSIZE <= v && v * PGSIZE < va + |p| :: Ent(mem, pd, Dir(v)).Pte?
      modifies this`mem, this`free, this`uses
      ensures Ok(pd) && WholePages(mem, pd) && done <= |p| && Copied(pd, old(Now()), Now(), va, p, done)
      ensures r == 0 <==> done == |p|
      ensures r != 0 ==> r == -1 && !UserPage(old(mem), pd, (va + done) / PGSIZE)
      ensures UserRange(old(mem), pd, va, va + done)
      ensures r == 0 <==> UserRange(old(mem), pd, va, va + |p|)
      ensures (forall x | va <= x < va + |p| :: MappedWith(old(mem), pd, x / PGSIZE, PTE_W + PTE_U)) ==> r == 0
      ensures (exists x | va <= x < va + |p| :: MappedWith(old(mem), pd, x / PGSIZE, PTE_W)) ==> r == -1
    {
      hide UserRange, MappedWith, WholePages, VmOk;
      ghost var s := Now();
      var at, len, buf := va, |p|, 0;
      RangeByPerm(mem, pd, va, va + |p|);
      NoRange(mem, pd, va);
      NothingCopied(pd, s, va, p);
      while len > 0
        invariant 0 <= len && buf + len == |p| && at == va + buf && 0 <= buf
        invariant Ok(pd) && WholePages(mem, pd) && Copied(pd, s, Now(), va, p, buf)
        invariant forall i | 0 <= i < NENTRIES :: Ent(mem, pd, i) == Ent(s.mem, pd, i)
        invariant UserRange(s.mem, pd, va, at)
      {
        var va0 := at / PGSIZE;
        AddressPage(at);
        var pa0 := Uva2ka(pd, va0);
        if pa0.None? {
          RangeBroken(s.mem, pd, va, va + |p|, at);
          return -1, buf;
        }
        var n := PGSIZE - at % PGSIZE;
        if n > len {
          n := len;
        }
        RangeGrows(s.mem, pd, va, at, n);
        CopyPage(pd, s, va, p, buf, at, n, pa0.value);
        len, buf, at := len - n, buf + n, at + n;
      }
      return 0, |p|;
    }

    /** memmove of n bytes of p, from buf on, into the page at address at. */
    method CopyPage(pd: nat, ghost s: State, ghost va: nat, p: seq<int>, buf: nat, at: nat, n: nat, f: nat)
      requires Ok(pd) && WholePages(mem, pd) && Copied(pd, s, Now(), va, p, buf) && at == va + buf
      requires 0 < n && buf + n <= |p| && n <= PGSIZE - at % PGSIZE && at + n <= KERNBASE
      requires UserPage(mem, pd, at / PGSIZE) && Lookup(mem, pd, at / PGSIZE).frame == f
      modifies this`mem
      ensures Ok(pd) && WholePages(mem, pd) && Copied(pd, s, Now(), va, p, buf + n)
      ensures forall i | 0 <= i < NENTRIES :: Ent(mem, pd, i) == Ent(old(mem), pd, i)
    {
      AddressPage(at);
      assert PageAt(mem, pd, at / PGSIZE).Page?;
      assert UsedAs(uses, f, User(at / PGSIZE));
      var page := Page(Put(mem[f].bytes, at % PGSIZE, p, buf, n));
      DataWrite(lo, hi, pd, Now(), at / PGSIZE, page);
      CopiedMore(pd, s, Now(), State(mem[f := page], free, uses), va, p, buf, at, n);
      mem := mem[f := page];
    }

    /** setupkvm: with frames for the directory and for the tables the map takes, a new
        directory with exactly the kernel's mappings; otherwise every frame taken is back. */
    method Setupkvm(kmap: seq<Kmap>) returns (pd: Option<nat>)
      requires 0 < lo && PoolOk(lo, hi, free) && uses == map[] && KmapOk(kmap)
      modifies this`mem, this`free, this`uses
      ensures pd.Some? <==> 1 + KernelTables(kmap, |kmap|) <= |old(free)|
      ensures pd.Some? ==> Ok(pd.value) && Held(Now()) == FreeSet(old(Now()))
      ensures pd.Some? ==> KernelOnly(mem, pd.value, kmap, |kmap|)
      ensures pd.Some? ==> KernelTook(pd.value, old(Now()), Now(), kmap, |kmap|)
      ensures pd.None? ==> PoolOk(lo, hi, free) && uses == map[] && FreeSet(Now()) == FreeSet(old(Now()))
      ensures OutsideStays(FreeSet(old(Now())), old(mem), mem)
    {
      ghost var s := Now();
      pd := Kalloc();
      if pd.None? {
        return;
      }
      mem := mem[pd.value := EmptyTable()];
      uses := map[pd.value := Root];
      NewDirectory(lo, hi, s, kmap);
      var n := 0;
      while n < |kmap|
        invariant 0 <= n <= |kmap| && Ok(pd.value) && Held(Now()) == FreeSet(s)
        invariant KernelOnly(mem, pd.value, kmap, n) && KernelTook(pd.value, s, Now(), kmap, n)
        invariant OutsideStays(FreeSet(s), s.mem, mem)
      {
        var next := n + 1;
        ghost var was := mem;
        var ok := MapRow(pd.value, s, kmap, n, next);
        OutsideTwice(FreeSet(s), s.mem, was, mem);
        if !ok {
          ghost var now := mem;
          Freevm(pd.value);
          OutsideTwice(FreeSet(s), s.mem, now, mem);
          return None;
        }
        n := next;
      }
    }

    /** One pass of setupkvm's loop. */
    method MapRow(pd: nat, ghost s: State, kmap: seq<Kmap>, n: nat, ghost next: nat) returns (ok: bool)
      requires Ok(pd) && n < |kmap| && next == n + 1 && KmapOk(kmap)
      requires KernelOnly(mem, pd, kmap, n) && KernelTook(pd, s, Now(), kmap, n)
      modifies this`mem, this`free, this`uses
      ensures Ok(pd) && Held(Now()) == Held(old(Now())) && OutsideStays(Held(Now()), old(mem), mem)
      ensures ok ==> KernelOnly(mem, pd, kmap, next) && KernelTook(pd, s, Now(), kmap, next)
      ensures !ok ==> 1 + KernelTables(kmap, |kmap|) > |s.free|
    {
      ghost var w := Now();
      assert RowOk(kmap[n]);
      RowPages(kmap[n], 0);
      var r; ghost var end;
      r, end := Mappages(pd, kmap[n].virt, kmap[n].Size(), kmap[n].start, kmap[n].perm);
      KernelMore(pd, w, Now(), kmap, n, next, end, r);
      if r == NoMemory {
        RowDirs(kmap[n]);
        KernelShort(pd, s, w, Now(), kmap, n, kmap[n].virt / PGSIZE, end, LastPage(kmap[n].virt, kmap[n].Size()) + 1);
      } else {
        KernelTookMore(pd, s, w, Now(), kmap, n, next, end);
      }
      ok := r != NoMemory;
    }
  }

  function LastPage(va: nat, size: nat): nat
    requires 0 < size
  {
    (va + size - 1) / PGSIZE
  }

  lemma PageBounds(va: nat, size: nat)
    requires 0 < size && va + size <= 0x1_0000_0000
    ensures va / PGSIZE <= LastPage(va, size) < ALLPAGES
    ensures va < KERNBASE <==> va / PGSIZE < USERPAGES
  {
  }

  /** The frames that are to be user pages are in nobody's hands. */
  ghost predicate FramesLoose(lo: nat, hi: nat, s: State, v: nat, last: nat, f: nat) {
    forall u: nat | v <= u <= last && u < USERPAGES :: FrameLoose(lo, hi, s, v, f, u)
  }

  ghost predicate FrameLoose(lo: nat, hi: nat, s: State, v: nat, f: nat, u: nat)
    requires v <= u
  {
    Loose(s, f + (u - v)) && lo <= f + (u - v) < hi
  }

  lemma {:induction false} UserFramesBelow(v: nat, end: nat, f: nat, g: nat)
    requires g in UserFrames(v, end, f)
    ensures f <= g < f + (end - v)
  {
    if v < end && g in UserFrames(v, end - 1, f) {
      UserFramesBelow(v, end - 1, f, g);
    }
  }

  lemma NothingMapped(pd: nat, s: State, v: nat, f: nat, perm: nat)
    ensures Mapping(pd, s, s, v, v, f, perm) && Took(pd, s, s, v, v, 0)
  {
    assert Held(s) + UserFrames(v, v, f) == Held(s);
    TookNothing(pd, s, v);
  }

  lemma MappingGoesOn(pd: nat, s: State, w: State, x: State, v: nat, end: nat, f: nat, perm: nat)
    requires Mapping(pd, s, w, v, end, f, perm) && OnlyTables(pd, w, x)
    ensures Mapping(pd, s, x, v, end, f, perm)
  {
    forall g | g !in Held(x) ensures Still(s.mem, x.mem, g) {
      assert Still(s.mem, w.mem, g) && Still(w.mem, x.mem, g);
    }
    forall u | v <= u < end && u < USERPAGES && f + (u - v) in s.mem
      ensures PageAt(x.mem, pd, u) == s.mem[f + (u - v)]
    {
      assert PageAt(x.mem, pd, u) == PageAt(w.mem, pd, u);
    }
  }

  /** A page found mapped was mapped to begin with, and its table was there. */
  lemma WasMapped(pd: nat, s: State, w: State, x: State, v: nat, end: nat, f: nat, perm: nat)
    requires Mapping(pd, s, w, v, end, f, perm) && Took(pd, s, w, v, end, 0)
    requires OnlyTables(pd, w, x) && Took(pd, w, x, end, end + 1, 0) && Lookup(x.mem, pd, end).Pte?
    requires Dir(end) < NENTRIES
    ensures Lookup(s.mem, pd, end).Pte? && Took(pd, s, x, v, end, 0)
  {
    assert Lookup(w.mem, pd, end).Pte?;
    assert HasTable(w.mem, pd, Dir(end));
    assert Missing(w.mem, pd, Dir(end), Dir(end) + 1) == 0;
  }

  lemma LeafStep(
      lo: nat, hi: nat, pd: nat, s: State, w: State, v: nat, a: nat, next: nat, f: nat, f0: nat, perm: nat, last: nat)
    requires VmOk(lo, hi, pd, w) && Mapping(pd, s, w, v, a, f0, perm) && Took(pd, s, w, v, next, 0)
    requires f == f0 + (a - v) && v <= a <= last && next == a + 1 && FramesLoose(lo, hi, s, v, last, f0)
    requires Ent(w.mem, pd, Dir(a)).Pte? && Lookup(w.mem, pd, a).Absent?
    ensures var t := Ent(w.mem, pd, Dir(a)).frame; t in w.mem && w.mem[t].Table?
    ensures VmOk(lo, hi, pd, WithLeaf(w, pd, a, f, perm))
    ensures Mapping(pd, s, WithLeaf(w, pd, a, f, perm), v, next, f0, perm)
    ensures Took(pd, s, WithLeaf(w, pd, a, f, perm), v, next, 0)
  {
    if a < USERPAGES {
      assert FrameLoose(lo, hi, s, v, f0, a);
      StillLoose(pd, s, w, v, a, f0, perm, f);
    }
    LeafIsAdded(w, lo, hi, pd, a, f, perm);
    OneMoreMapped(pd, s, w, WithLeaf(w, pd, a, f, perm), v, a, next, f, f0, perm);
  }

  lemma StillLoose(pd: nat, s: State, w: State, v: nat, a: nat, f0: nat, perm: nat, f: nat)
    requires Mapping(pd, s, w, v, a, f0, perm) && Loose(s, f) && f == f0 + (a - v) && v <= a
    ensures Loose(w, f) && Still(s.mem, w.mem, f)
  {
    NotHeld(s, f);
    NotHeld(w, f);
    if f in UserFrames(v, a, f0) {
      UserFramesBelow(v, a, f0, f);
    }
  }

  lemma OneMoreMapped(
      pd: nat, s: State, w: State, x: State, v: nat, a: nat, next: nat, f: nat, f0: nat, perm: nat)
    requires Mapping(pd, s, w, v, a, f0, perm) && LeafAdded(pd, w, x, a, f, perm) && Took(pd, s, w, v, next, 0)
    requires f == f0 + (a - v) && v <= a && next == a + 1 && (a < USERPAGES ==> Still(s.mem, w.mem, f))
    ensures Mapping(pd, s, x, v, next, f0, perm) && Took(pd, s, x, v, next, 0)
  {
    assert UserFrames(v, next, f0) == if a < USERPAGES then UserFrames(v, a, f0) + {f} else UserFrames(v, a, f0);
    assert Held(x) == Held(s) + UserFrames(v, next, f0);
    forall g | g !in Held(x) ensures Still(s.mem, x.mem, g) {
      assert Still(s.mem, w.mem, g) && Still(w.mem, x.mem, g);
    }
    forall i | 0 <= i < NENTRIES ensures HasTable(x.mem, pd, i) == HasTable(w.mem, pd, i) {
    }
  }

  lemma WholePage(p: nat, vend: nat)
    ensures (p + 1) * PGSIZE <= vend <==> p < vend / PGSIZE
  {
  }

  function Upper(x: nat, y: nat): nat {
    if x < y then y else x
  }

  function Least(x: nat, y: nat): nat {
    if x < y then x else y
  }

  lemma NothingCleared(pd: nat, s: State, from: nat, to: nat)
    requires to <= from
    ensures Cleared(pd, s, s, from, to)
  {
  }

  lemma PageAtAddress(a: nat, v: nat, oldsz: nat)
    requires a == v * PGSIZE && a < oldsz <= KERNBASE
    ensures v < PageUp(oldsz) && v < USERPAGES && Dir(v) < NENTRIES
    ensures (Dir(v) + 1) * NENTRIES > v
  {
  }

  lemma LastCleared(a: nat, v: nat, oldsz: nat)
    requires a == v * PGSIZE && oldsz <= a
    ensures PageUp(oldsz) <= v
  {
  }

  /** Where there is no table every page up to the end of its 4MB is unmapped already. */
  lemma ClearedToo(pd: nat, s: State, w: State, from: nat, v: nat, to: nat)
    requires Cleared(pd, s, w, from, v) && from <= v < to && Ent(w.mem, pd, Dir(v)).Absent?
    ensures Cleared(pd, s, w, from, Least((Dir(v) + 1) * NENTRIES, to))
  {
    forall u: nat | v <= u < (Dir(v) + 1) * NENTRIES ensures Lookup(w.mem, pd, u).Absent? {
      assert Dir(u) == Dir(v);
    }
  }

  lemma ClearedOne(pd: nat, s: State, w: State, from: nat, v: nat)
    requires Cleared(pd, s, w, from, v) && from <= v && Lookup(w.mem, pd, v).Absent?
    ensures Cleared(pd, s, w, from, v + 1)
  {
  }

  lemma FreedThenCleared(mem: Memory, t: nat, f: nat, i: nat)
    requires t != f && t in mem && mem[t].Table? && i < NENTRIES
    ensures WithEnt(mem[f := Junk()], t, i, Absent) == WithEnt(mem, t, i, Absent)[f := Junk()]
  {
  }

  lemma UnmapStep(lo: nat, hi: nat, pd: nat, s: State, w: State, from: nat, v: nat)
    requires VmOk(lo, hi, pd, w) && from <= v < USERPAGES && Cleared(pd, s, w, from, v) && Lookup(w.mem, pd, v).Pte?
    ensures var t := Ent(w.mem, pd, Dir(v)).frame; t in w.mem && w.mem[t].Table?
    ensures Cleared(pd, s, WithoutLeaf(w, pd, v, Junk()), from, v + 1)
  {
    DropLeaf(w, lo, hi, pd, v, Junk());
    var x := WithoutLeaf(w, pd, v, Junk());
    forall u | 0 <= u < USERPAGES && u != v ensures PageAt(x.mem, pd, u) == PageAt(w.mem, pd, u) {
      DropKeepsPages(w, lo, hi, pd, v, Junk(), u);
    }
    assert UsedAs(w.uses, Lookup(w.mem, pd, v).frame, User(v));
    forall g | g !in Held(x) ensures Still(s.mem, x.mem, g) {
      assert Still(s.mem, w.mem, g) && Ent(w.mem, pd, Dir(v)).frame in Held(w);
    }
  }

  lemma NewIsWritable(lo: nat, hi: nat, pd: nat, s: State, w: State, from: nat, to: nat, u: nat)
    requires VmOk(lo, hi, pd, w) && Grown(pd, s, w, from, to) && from <= u < to
    ensures UserWrites(w.mem, pd, u) && Lookup(w.mem, pd, u).perm == PTE_W + PTE_U
  {
    hide VmOk, UserWrites, HasU, HasW;
    assert NewPage(s, w.mem, pd, u);
    Permissions();
    LeafDecides(lo, hi, pd, w, u);
  }

  lemma NothingGrown(pd: nat, s: State, from: nat)
    ensures GrownSoFar(pd, s, s, from, from)
  {
    TookNothing(pd, s, from);
  }

  lemma GrownFits(pd: nat, s: State, w: State, from: nat, v: nat, to: nat)
    requires GrownSoFar(pd, s, w, from, v) && v == to
    ensures Grown(pd, s, w, from, to) && Needed(pd, s, from, to) <= |s.free|
  {
  }

  /** More pages never take fewer tables. */
  lemma NeededGrows(pd: nat, s: State, from: nat, v: nat, to: nat)
    requires from <= v <= to
    ensures Missing(s.mem, pd, Dir(from), DirEnd(from, v)) <= Missing(s.mem, pd, Dir(from), DirEnd(from, to))
  {
    if from < v {
      assert Dir(from) <= Dir(v - 1) <= Dir(to - 1);
    } else if from < to {
      assert Dir(from) <= Dir(to - 1);
    }
    MissingSplit(s.mem, pd, Dir(from), DirEnd(from, v), DirEnd(from, to));
  }

  lemma NoPageLeft(pd: nat, s: State, w: State, from: nat, v: nat, to: nat)
    requires GrownSoFar(pd, s, w, from, v) && v < to && w.free == []
    ensures Needed(pd, s, from, to) > |s.free|
  {
    NeededGrows(pd, s, from, v, to);
  }

  /** Stopped for want of a table, with no frame left: the pages up to to take more. */
  lemma TableShort(pd: nat, x: State, y: State, v: nat, end: nat, to: nat)
    requires Took(pd, x, y, v, end, 0) && v <= end < to && y.free == []
    requires !HasTable(y.mem, pd, Dir(end)) && Dir(end) < NENTRIES
    ensures Missing(x.mem, pd, Dir(v), DirEnd(v, to)) > |x.free|
  {
    assert !HasTable(x.mem, pd, Dir(end));
    if v < end {
      assert Dir(v) <= Dir(end - 1) <= Dir(end) <= Dir(end - 1) + 1;
    }
    assert DirEnd(v, end) == Dir(end);
    assert Missing(x.mem, pd, Dir(v), Dir(end) + 1) == Missing(x.mem, pd, Dir(v), Dir(end)) + 1;
    NeededGrows(pd, x, v, end + 1, to);
  }

  lemma NoTableLeft(pd: nat, s: State, w: State, x: State, y: State, f: nat, from: nat, v: nat, to: nat)
    requires GrownSoFar(pd, s, w, from, v) && v < to && Taken(pd, w, x, f) && Took(pd, x, y, v, v, 0)
    requires y.free == [] && !HasTable(y.mem, pd, Dir(v)) && Dir(v) < NENTRIES
    ensures Needed(pd, s, from, to) > |s.free|
  {
    assert !HasTable(x.mem, pd, Dir(v)) && !HasTable(w.mem, pd, Dir(v)) && !HasTable(s.mem, pd, Dir(v));
    if from < v {
      assert Dir(from) <= Dir(v - 1) <= Dir(v) <= Dir(v - 1) + 1;
    }
    assert DirEnd(from, v) == Dir(v);
    assert DirEnd(from, v + 1) == Dir(v) + 1;
    assert Missing(s.mem, pd, Dir(from), Dir(v) + 1) == Missing(s.mem, pd, Dir(from), Dir(v)) + 1;
    NeededGrows(pd, s, from, v + 1, to);
  }

  /** kalloc takes the head of the free list; filling it changes nothing that is mapped. */
  lemma TakenFrame(lo: nat, hi: nat, pd: nat, w: State, page: Frame)
    requires VmOk(lo, hi, pd, w) && w.free != []
    ensures var f := w.free[0];
      var x := State(w.mem[f := page], w.free[1..], w.uses);
      VmOk(lo, hi, pd, x) && TakenFor(pd, w, x, f, page) && lo <= f < hi
  {
    var f := w.free[0];
    var x := State(w.mem[f := page], w.free[1..], w.uses);
    forall k | 0 <= k < |x.free| ensures x.free[k] == w.free[k + 1] && x.free[k] != f {
    }
    assert w.free == [f] + x.free;
    OutsideWrite(lo, hi, pd, w, f, page);
    assert f != pd;
    assert forall g :: g in w.free <==> g == f || g in x.free;
    assert FreeSet(w) == FreeSet(x) + {f};
  }

  lemma OneFrame(lo: nat, hi: nat, x: State, v: nat, f: nat)
    requires Loose(x, f) && lo <= f < hi
    ensures FramesLoose(lo, hi, x, v, v, f)
  {
  }

  /** Writing a frame the address space does not use changes nothing that is mapped. */
  lemma OutsideWrite(lo: nat, hi: nat, pd: nat, s: State, f: nat, page: Frame)
    requires VmOk(lo, hi, pd, s) && f !in s.uses
    ensures VmOk(lo, hi, pd, s.(mem := s.mem[f := page]))
    ensures forall u :: Lookup(s.mem[f := page], pd, u) == Lookup(s.mem, pd, u)
    ensures forall u | 0 <= u < USERPAGES :: PageAt(s.mem[f := page], pd, u) == PageAt(s.mem, pd, u)
  {
    var mem := s.mem[f := page];
    forall i | 0 <= i < NENTRIES && Ent(s.mem, pd, i).Pte?
      ensures TableOk(s.mem, s.uses, Ent(s.mem, pd, i).frame, i) && Ent(s.mem, pd, i).frame != f
    {
      assert TableOk(s.mem, s.uses, Ent(s.mem, pd, i).frame, i);
    }
    forall u ensures Lookup(mem, pd, u) == Lookup(s.mem, pd, u) {
      assert Ent(mem, pd, Dir(u)) == Ent(s.mem, pd, Dir(u));
      assert Dir(u) < NENTRIES && Ent(s.mem, pd, Dir(u)).Pte? ==> Ent(s.mem, pd, Dir(u)).frame != f;
    }
    forall u | 0 <= u < USERPAGES ensures PageAt(mem, pd, u) == PageAt(s.mem, pd, u) {
      if Lookup(s.mem, pd, u).Pte? {
        assert UsedAs(s.uses, Lookup(s.mem, pd, u).frame, User(u));
      }
    }
    var t := s.(mem := mem);
    forall i | 0 <= i < NENTRIES && Ent(mem, pd, i).Pte? ensures TableOk(mem, s.uses, Ent(mem, pd, i).frame, i) {
      assert Ent(mem, pd, i) == Ent(s.mem, pd, i);
    }
    forall v | 0 <= v < USERPAGES && Lookup(mem, pd, v).Pte? ensures UsedAs(s.uses, Lookup(mem, pd, v).frame, User(v)) {
      assert UsedAs(s.uses, Lookup(s.mem, pd, v).frame, User(v));
    }
    forall g | g in s.uses ensures lo <= g < hi && InUse(mem, pd, g, s.uses[g]) {
      assert InUse(s.mem, pd, g, s.uses[g]);
    }
  }

  lemma OnePage(a: nat, v: nat, f: nat)
    requires a == v * PGSIZE && v < USERPAGES
    ensures a / PGSIZE == v && LastPage(a, PGSIZE) == v && a < KERNBASE && a + PGSIZE <= 0x1_0000_0000
    ensures f * PGSIZE % PGSIZE == 0 && f * PGSIZE / PGSIZE == f
  {
  }

  /** mappages does not find page v mapped. */
  lemma NotMappedYet(pd: nat, s: State, w: State, x: State, f: nat, from: nat, v: nat, to: nat)
    requires Grown(pd, s, w, from, v) && from <= v < to && Taken(pd, w, x, f) && Unmapped(pd, s, from, to)
    ensures Lookup(x.mem, pd, v).Absent?
  {
  }

  /** The new page joins those before it. */
  lemma GrownMore(pd: nat, s: State, w: State, x: State, y: State, f: nat, from: nat, v: nat, next: nat)
    requires GrownSoFar(pd, s, w, from, v) && from <= v < USERPAGES && Taken(pd, w, x, f) && next == v + 1
    requires Mapping(pd, x, y, v, next, f, PTE_W + PTE_U) && Took(pd, x, y, v, next, 0)
    ensures GrownSoFar(pd, s, y, from, next)
  {
    assert UserFrames(v, next, f) == {f};
    assert Held(y) == Held(s);
    forall u: nat | from <= u < next ensures NewPage(s, y.mem, pd, u) {
      NewPageStays(pd, s, w, x, y, f, from, v, next, u);
    }
    forall g | g !in Held(y) ensures Still(s.mem, y.mem, g) {
      assert Still(s.mem, w.mem, g) && Still(x.mem, y.mem, g);
    }
    GrownTook(pd, s, w, x, y, f, from, v, next, ZeroPage());
  }

  lemma NewPageStays(
      pd: nat, s: State, w: State, x: State, y: State, f: nat, from: nat, v: nat, next: nat, u: nat)
    requires GrownSoFar(pd, s, w, from, v) && from <= v < USERPAGES && Taken(pd, w, x, f) && next == v + 1
    requires Mapping(pd, x, y, v, next, f, PTE_W + PTE_U) && from <= u < next
    ensures NewPage(s, y.mem, pd, u)
  {
    assert u < v ==> NewPage(s, w.mem, pd, u) && PageAt(y.mem, pd, u) == PageAt(w.mem, pd, u);
  }

  lemma GrownTook(pd: nat, s: State, w: State, x: State, y: State, f: nat, from: nat, v: nat, next: nat, page: Frame)
    requires from <= v < USERPAGES && Took(pd, s, w, from, v, v - from) && TakenFor(pd, w, x, f, page)
    requires next == v + 1 && Took(pd, x, y, v, next, 0)
    ensures Took(pd, s, y, from, next, next - from)
  {
    forall i | 0 <= i < NENTRIES ensures HasTable(x.mem, pd, i) == HasTable(w.mem, pd, i) {
    }
    MissingSame(x.mem, w.mem, pd, Dir(v), DirEnd(v, next));
    TookNext(pd, s, w, State(y.mem, y.free + [0], y.uses), from, v, next, v - from);
  }

  /** Clearing what had grown, over pages that were not mapped to begin with, restores the mapping. */
  lemma GrownUndone(pd: nat, s: State, w: State, x: State, from: nat, v: nat, to: nat)
    requires Grown(pd, s, w, from, v) && v <= to && Cleared(pd, w, x, from, to) && Unmapped(pd, s, from, to)
    ensures Cleared(pd, s, x, 0, 0)
  {
    forall u | 0 <= u < USERPAGES ensures PageAt(x.mem, pd, u) == PageAt(s.mem, pd, u) {
      assert Lookup(x.mem, pd, u) == Lookup(s.mem, pd, u);
    }
    forall g | g !in Held(x) ensures Still(s.mem, x.mem, g) {
      assert Still(s.mem, w.mem, g) && Still(w.mem, x.mem, g);
    }
  }

  /** After mappages ran out of memory: the frame that was to be mapped is freed as well. */
  lemma BackAgain(
      lo: nat, hi: nat, pd: nat, w: State, x: State, y: State, z: State, f: nat, from: nat, v: nat, to: nat)
    requires VmOk(lo, hi, pd, z) && lo <= f < hi && Taken(pd, w, x, f)
    requires Mapping(pd, x, y, v, v, f, PTE_W + PTE_U) && Cleared(pd, y, z, from, to)
    ensures var e := State(z.mem[f := Junk()], [f] + z.free, z.uses);
      VmOk(lo, hi, pd, e) && Cleared(pd, w, e, from, to)
  {
    assert UserFrames(v, v, f) == {};
    NotHeld(x, f);
    NotHeld(z, f);
    FrameBack(lo, hi, pd, z, f);
    var e := State(z.mem[f := Junk()], [f] + z.free, z.uses);
    forall g | g !in Held(e) ensures Still(w.mem, e.mem, g) {
      assert Still(x.mem, y.mem, g) && Still(y.mem, z.mem, g);
    }
  }

  /** A loose frame is freed: nothing that is mapped changes, and the frame is held. */
  lemma FrameBack(lo: nat, hi: nat, pd: nat, z: State, f: nat)
    requires VmOk(lo, hi, pd, z) && lo <= f < hi && Loose(z, f)
    ensures var e := State(z.mem[f := Junk()], [f] + z.free, z.uses);
      && VmOk(lo, hi, pd, e) && Held(e) == Held(z) + {f}
      && (forall u :: Lookup(e.mem, pd, u) == Lookup(z.mem, pd, u))
      && forall u | 0 <= u < USERPAGES :: PageAt(e.mem, pd, u) == PageAt(z.mem, pd, u)
  {
    var e := State(z.mem[f := Junk()], [f] + z.free, z.uses);
    OutsideWrite(lo, hi, pd, z, f, Junk());
    forall k | 0 <= k < |e.free| ensures e.free[k] == if k == 0 then f else z.free[k - 1] {
    }
    assert forall g :: g in e.free <==> g == f || g in z.free;
    assert forall i, j | 0 <= i < j < |e.free| :: e.free[i] != e.free[j];
    assert FreeSet(e) == FreeSet(z) + {f};
  }

  // ----- freevm -----

  /** The free list names frames of the pool, none twice. */
  ghost predicate PoolOk(lo: nat, hi: nat, free: seq<nat>) {
    Distinct(free) && forall k | 0 <= k < |free| :: lo <= free[k] < hi
  }

  lemma PoolGrows(lo: nat, hi: nat, s: State, f: nat)
    requires PoolOk(lo, hi, s.free) && lo <= f < hi && f !in FreeSet(s)
    ensures PoolOk(lo, hi, [f] + s.free)
    ensures forall g :: g in [f] + s.free <==> g == f || g in s.free
  {
    var free := [f] + s.free;
    forall i, j | 0 <= i < j < |free| ensures free[i] != free[j] {
      assert free[j] == s.free[j - 1];
      assert free[j] in FreeSet(s);
    }
  }

  /** The directory's first i tables are freed; the rest and the directory are still in use. */
  ghost predicate Tearing(lo: nat, hi: nat, pd: nat, dir: Entries, i: nat, s: State) {
    match s case State(mem, free, uses) =>
      && PoolOk(lo, hi, free) && lo <= pd < hi && UsedAs(uses, pd, Root)
      && (forall f | f in uses :: lo <= f < hi && f !in FreeSet(s))
      && (forall f | f in uses :: f == pd || Later(dir, i, f, uses[f]))
      && forall j | i <= j < NENTRIES && dir[j].Pte? :: UsedAs(uses, dir[j].frame, Tab(j))
  }

  predicate Later(dir: Entries, i: nat, f: nat, u: Use) {
    u.Tab? && i <= u.i < NENTRIES && dir[u.i].Pte? && dir[u.i].frame == f
  }

  lemma NoUserPages(lo: nat, hi: nat, pd: nat, s: State, w: State)
    requires VmOk(lo, hi, pd, w) && Cleared(pd, s, w, PageUp(0), PageUp(KERNBASE))
    ensures Tearing(lo, hi, pd, w.mem[pd].ptes, 0, w)
  {
    var dir := w.mem[pd].ptes;
    forall f | f in w.uses ensures lo <= f < hi && f !in FreeSet(w) && (f == pd || Later(dir, 0, f, w.uses[f])) {
      NotHeld(State(w.mem, w.free, map[]), f);
      assert InUse(w.mem, pd, f, w.uses[f]);
    }
    forall j | 0 <= j < NENTRIES && dir[j].Pte? ensures UsedAs(w.uses, dir[j].frame, Tab(j)) {
      assert TableOk(w.mem, w.uses, Ent(w.mem, pd, j).frame, j);
    }
  }

  lemma TornNone(lo: nat, hi: nat, pd: nat, dir: Entries, i: nat, next: nat, s: State)
    requires Tearing(lo, hi, pd, dir, i, s) && i < NENTRIES && dir[i].Absent? && next == i + 1
    ensures Tearing(lo, hi, pd, dir, next, s)
  {
    forall g | g in s.uses ensures g == pd || Later(dir, next, g, s.uses[g]) {
      assert g == pd || Later(dir, i, g, s.uses[g]);
    }
  }

  lemma TornOne(lo: nat, hi: nat, pd: nat, dir: Entries, i: nat, next: nat, s: State, junk: Frame)
    requires Tearing(lo, hi, pd, dir, i, s) && i < NENTRIES && dir[i].Pte? && next == i + 1
    ensures var f := dir[i].frame;
      var w := State(s.mem[f := junk], [f] + s.free, s.uses - {f});
      lo <= f < hi && Tearing(lo, hi, pd, dir, next, w) && Held(w) == Held(s)
  {
    var f := dir[i].frame;
    assert UsedAs(s.uses, f, Tab(i));
    var w := State(s.mem[f := junk], [f] + s.free, s.uses - {f});
    PoolGrows(lo, hi, s, f);
    forall j | next <= j < NENTRIES && dir[j].Pte? ensures UsedAs(w.uses, dir[j].frame, Tab(j)) {
      assert UsedAs(s.uses, dir[j].frame, Tab(j));
    }
    forall g | g in w.uses ensures g == pd || Later(dir, next, g, w.uses[g]) {
      assert g == pd || Later(dir, i, g, s.uses[g]);
    }
    assert FreeSet(w) == FreeSet(s) + {f};
  }

  lemma TornDown(lo: nat, hi: nat, pd: nat, dir: Entries, s: State)
    requires Tearing(lo, hi, pd, dir, NENTRIES, s)
    ensures lo <= pd < hi && PoolOk(lo, hi, [pd] + s.free)
    ensures forall m: Memory :: FreeSet(State(m, [pd] + s.free, map[])) == Held(s)
  {
    PoolGrows(lo, hi, s, pd);
    assert s.uses.Keys == {pd};
    forall m: Memory ensures FreeSet(State(m, [pd] + s.free, map[])) == Held(s) {
      assert forall g :: g in FreeSet(State(m, [pd] + s.free, map[])) <==> g in Held(s);
    }
  }

  // ----- copyout -----

  /** User code may use page v. */
  predicate UserPage(mem: Memory, pd: nat, v: nat) {
    Lookup(mem, pd, v).Pte? && HasU(Lookup(mem, pd, v).perm)
  }

  /** User code may use every address from va up to end. */
  ghost predicate UserRange(mem: Memory, pd: nat, va: nat, end: nat) {
    forall x | va <= x < end :: UserPage(mem, pd, x / PGSIZE)
  }

  lemma NoRange(mem: Memory, pd: nat, va: nat)
    ensures UserRange(mem, pd, va, va)
  {
  }

  lemma RangeGrows(mem: Memory, pd: nat, va: nat, at: nat, n: nat)
    requires UserRange(mem, pd, va, at) && UserPage(mem, pd, at / PGSIZE) && n <= PGSIZE - at % PGSIZE
    ensures UserRange(mem, pd, va, at + n)
  {
    forall x | va <= x < at + n ensures UserPage(mem, pd, x / PGSIZE) {
      SamePageBytes(x, at, n);
    }
  }

  lemma RangeBroken(mem: Memory, pd: nat, va: nat, end: nat, at: nat)
    requires va <= at < end && !UserPage(mem, pd, at / PGSIZE)
    ensures !UserRange(mem, pd, va, end)
  {
  }

  /** Pages mapped with both permissions may be used, and one with PTE_W alone may not. */
  lemma RangeByPerm(mem: Memory, pd: nat, va: nat, end: nat)
    ensures (forall x | va <= x < end :: MappedWith(mem, pd, x / PGSIZE, PTE_W + PTE_U)) ==> UserRange(mem, pd, va, end)
    ensures (exists x | va <= x < end :: MappedWith(mem, pd, x / PGSIZE, PTE_W)) ==> !UserRange(mem, pd, va, end)
  {
    Permissions();
    if x :| va <= x < end && MappedWith(mem, pd, x / PGSIZE, PTE_W) {
      assert !UserPage(mem, pd, x / PGSIZE);
    }
  }

  lemma NothingCopied(pd: nat, s: State, va: nat, p: seq<int>)
    ensures Copied(pd, s, s, va, p, 0)
  {
  }

  /** The last two pages of top: one user code may not use, and the stack, which it may write. */
  ghost predicate StackAt(mem: Memory, pd: nat, top: nat) {
    && top >= 2 && Lookup(mem, pd, top - 2).Pte? && !HasU(Lookup(mem, pd, top - 2).perm)
    && !UserReads(mem, pd, top - 2) && UserWrites(mem, pd, top - 1)
  }

  lemma StackBounds(first: nat)
    ensures PageUp(first * PGSIZE) == first && PageUp(first * PGSIZE + 2 * PGSIZE) == first + 2
    ensures first * PGSIZE + 2 * PGSIZE == (first + 2) * PGSIZE
    ensures (first + 2) * PGSIZE / PGSIZE == first + 2
    ensures (first + 2) * PGSIZE < KERNBASE ==> first + 2 <= USERPAGES && Dir(first) < NENTRIES
  {
  }

  lemma SamePagesWhole(pd: nat, s: State, w: State)
    requires WholePages(s.mem, pd) && (Cleared(pd, s, w, 0, 0) || w == s)
    ensures WholePages(w.mem, pd)
    ensures forall u | 0 <= u < USERPAGES ::
      Lookup(w.mem, pd, u) == Lookup(s.mem, pd, u) && PageAt(w.mem, pd, u) == PageAt(s.mem, pd, u)
  {
    forall u | 0 <= u < USERPAGES
      ensures Lookup(w.mem, pd, u) == Lookup(s.mem, pd, u) && PageAt(w.mem, pd, u) == PageAt(s.mem, pd, u)
    {
    }
  }

  lemma NewPagesWhole(lo: nat, hi: nat, pd: nat, s: State, w: State, from: nat, to: nat)
    requires VmOk(lo, hi, pd, w) && WholePages(s.mem, pd) && Grown(pd, s, w, from, to)
    ensures WholePages(w.mem, pd)
    ensures forall u | from <= u < to ::
      UserWrites(w.mem, pd, u) && HasTable(w.mem, pd, Dir(u)) && Lookup(w.mem, pd, u).Pte?
  {
    hide VmOk;
    forall u | from <= u < to
      ensures UserWrites(w.mem, pd, u) && HasTable(w.mem, pd, Dir(u)) && Lookup(w.mem, pd, u).Pte?
    {
      NewIsWritable(lo, hi, pd, s, w, from, to, u);
    }
    forall u | 0 <= u < USERPAGES && Lookup(w.mem, pd, u).Pte? ensures WholeFrame(PageAt(w.mem, pd, u)) {
      if from <= u < to {
        assert NewPage(s, w.mem, pd, u);
      } else {
        assert WholeFrame(PageAt(s.mem, pd, u));
      }
    }
  }

  /** The first of the new pages is barred. */
  lemma StackMade(pd: nat, s: State, w: State, x: State, first: nat)
    requires WholePages(w.mem, pd) && Grown(pd, s, w, first, first + 2) && UserBarred(pd, w, x, first)
    requires Lookup(w.mem, pd, first).Pte? && UserWrites(w.mem, pd, first + 1) && !UserReads(x.mem, pd, first)
    ensures WholePages(x.mem, pd) && StackAt(x.mem, pd, first + 2)
    ensures forall u | 0 <= u < USERPAGES && !(first <= u < first + 2) ::
      Lookup(x.mem, pd, u) == Lookup(s.mem, pd, u) && PageAt(x.mem, pd, u) == PageAt(s.mem, pd, u)
  {
    hide HasU, HasW, WithoutU;
    forall u | 0 <= u < USERPAGES && Lookup(x.mem, pd, u).Pte? ensures WholeFrame(PageAt(x.mem, pd, u)) {
      assert WholeFrame(PageAt(w.mem, pd, u));
    }
  }

  /** Where n bytes below sp begin, at a multiple of 4. */
  function WordBelow(sp: nat, n: nat): (at: nat)
    requires n <= sp
    ensures at % 4 == 0 && sp - n - 4 < at <= sp - n
  {
    (sp - n) / 4 * 4
  }

  /** n bytes below sp, at a multiple of 4, may be used exactly when they reach no lower than the stack page. */
  lemma OnStack(mem: Memory, pd: nat, top: nat, sp: nat, n: nat)
    requires StackAt(mem, pd, top) && (top - 1) * PGSIZE <= sp <= top * PGSIZE && 0 < n <= sp
    ensures var at := WordBelow(sp, n);
      && at + n <= top * PGSIZE
      && (UserRange(mem, pd, at, at + n) <==> (top - 1) * PGSIZE <= at)
  {
    hide HasU, HasW;
    var at, edge := WordBelow(sp, n), (top - 1) * PGSIZE;
    hide WordBelow;
    if edge <= at {
      forall x | at <= x < at + n ensures UserPage(mem, pd, x / PGSIZE) {
        assert x / PGSIZE == top - 1;
      }
    } else {
      var x := if at + n <= edge then at + n - 1 else edge - 1;
      assert x / PGSIZE == top - 2 && !UserPage(mem, pd, x / PGSIZE);
    }
  }

  lemma NotInRange(mem: Memory, pd: nat, va: nat, end: nat, x: nat)
    requires UserRange(mem, pd, va, end) && !UserPage(mem, pd, x / PGSIZE)
    ensures !(va <= x < end)
  {
  }

  lemma TablesBelow(mem: Memory, pd: nat, top: nat, end: nat)
    requires end <= top * PGSIZE && forall v: nat | v < top :: HasTable(mem, pd, Dir(v))
    ensures forall v: nat | v * PGSIZE < end :: Ent(mem, pd, Dir(v)).Pte?
  {
    forall v: nat | v * PGSIZE < end ensures Ent(mem, pd, Dir(v)).Pte? {
      assert v < top && HasTable(mem, pd, Dir(v));
    }
  }

  /** copyout never writes the page in front of the stack. */
  lemma GuardKept(pd: nat, s: State, w: State, top: nat, va: nat, p: seq<int>, done: nat)
    requires StackAt(s.mem, pd, top) && top * PGSIZE < KERNBASE && Copied(pd, s, w, va, p, done)
    requires UserRange(s.mem, pd, va, va + done) && WholePages(s.mem, pd) && WholePages(w.mem, pd)
    ensures PageAt(w.mem, pd, top - 2) == PageAt(s.mem, pd, top - 2)
  {
    hide HasU, HasW;
    var v := top - 2;
    assert Lookup(w.mem, pd, v) == Lookup(s.mem, pd, v) && Lookup(s.mem, pd, v).Pte?;
    var b, c := PageAt(s.mem, pd, v), PageAt(w.mem, pd, v);
    assert WholeFrame(b) && WholeFrame(c);
    forall i | 0 <= i < PGSIZE ensures c.bytes[i] == b.bytes[i] {
      var x := v * PGSIZE + i;
      assert x / PGSIZE == v && x % PGSIZE == i;
      NotInRange(s.mem, pd, va, va + done, x);
      assert UserByte(w.mem, pd, x) == UserByte(s.mem, pd, x);
    }
    assert c.bytes == b.bytes;
  }

  predicate MappedWith(mem: Memory, pd: nat, v: nat, perm: nat) {
    Lookup(mem, pd, v).Pte? && Lookup(mem, pd, v).perm == perm
  }

  /** User pages hold PGSIZE bytes. */
  ghost predicate WholePages(mem: Memory, pd: nat) {
    forall v | 0 <= v < USERPAGES && Lookup(mem, pd, v).Pte? :: WholeFrame(PageAt(mem, pd, v))
  }

  predicate WholeFrame(f: Frame) {
    f.Page? && |f.bytes| == PGSIZE
  }

  /** The byte at user address x. */
  ghost function UserByte(mem: Memory, pd: nat, x: nat): int {
    var f := PageAt(mem, pd, x / PGSIZE);
    if WholeFrame(f) then f.bytes[x % PGSIZE] else 0
  }

  /** The first k bytes of p are at va, all other user bytes and the mapping are as before. */
  ghost predicate Copied(pd: nat, s: State, w: State, va: nat, p: seq<int>, k: nat) {
    match w case State(mem, free, uses) =>
      && k <= |p| && free == s.free && uses == s.uses
      && (forall v :: Lookup(mem, pd, v) == Lookup(s.mem, pd, v))
      && forall x | 0 <= x < KERNBASE && Lookup(s.mem, pd, x / PGSIZE).Pte? ::
           UserByte(mem, pd, x) == if va <= x < va + k then p[x - va] else UserByte(s.mem, pd, x)
  }

  function Put(b: seq<int>, q: nat, p: seq<int>, buf: nat, n: nat): (c: seq<int>)
    requires |b| == PGSIZE && q + n <= PGSIZE && buf + n <= |p|
    ensures |c| == PGSIZE
  {
    seq(PGSIZE, i requires 0 <= i < PGSIZE => if q <= i < q + n then p[buf + (i - q)] else b[i])
  }

  lemma AddressPage(x: nat)
    ensures x < KERNBASE ==> x / PGSIZE < USERPAGES && Dir(x / PGSIZE) < NENTRIES
    ensures x / PGSIZE * PGSIZE <= x
  {
  }

  /** Writing the bytes of user page v changes no mapping and no other user page. */
  lemma DataWrite(lo: nat, hi: nat, pd: nat, s: State, v: nat, page: Frame)
    requires VmOk(lo, hi, pd, s) && v < USERPAGES && Lookup(s.mem, pd, v).Pte? && Lookup(s.mem, pd, v).frame in s.mem
    ensures var f := Lookup(s.mem, pd, v).frame;
      var mem := s.mem[f := page];
      && VmOk(lo, hi, pd, s.(mem := mem)) && (forall u :: Lookup(mem, pd, u) == Lookup(s.mem, pd, u))
      && (forall i | 0 <= i < NENTRIES :: Ent(mem, pd, i) == Ent(s.mem, pd, i))
      && forall u | 0 <= u < USERPAGES :: PageAt(mem, pd, u) == if u == v then page else PageAt(s.mem, pd, u)
  {
    var f := Lookup(s.mem, pd, v).frame;
    var mem := s.mem[f := page];
    assert UsedAs(s.uses, f, User(v));
    forall i | 0 <= i < NENTRIES && Ent(s.mem, pd, i).Pte?
      ensures TableOk(s.mem, s.uses, Ent(s.mem, pd, i).frame, i) && Ent(s.mem, pd, i).frame != f
    {
      assert TableOk(s.mem, s.uses, Ent(s.mem, pd, i).frame, i);
    }
    forall u ensures Lookup(mem, pd, u) == Lookup(s.mem, pd, u) {
      assert Ent(mem, pd, Dir(u)) == Ent(s.mem, pd, Dir(u));
      assert Dir(u) < NENTRIES && Ent(s.mem, pd, Dir(u)).Pte? ==> Ent(s.mem, pd, Dir(u)).frame != f;
    }
    forall i | 0 <= i < NENTRIES && Ent(mem, pd, i).Pte? ensures TableOk(mem, s.uses, Ent(mem, pd, i).frame, i) {
      assert Ent(mem, pd, i) == Ent(s.mem, pd, i);
    }
    forall u | 0 <= u < USERPAGES && Lookup(mem, pd, u).Pte? ensures UsedAs(s.uses, Lookup(mem, pd, u).frame, User(u)) {
      assert UsedAs(s.uses, Lookup(s.mem, pd, u).frame, User(u));
    }
    forall u | 0 <= u < USERPAGES ensures PageAt(mem, pd, u) == if u == v then page else PageAt(s.mem, pd, u) {
      if Lookup(s.mem, pd, u).Pte? {
        assert UsedAs(s.uses, Lookup(s.mem, pd, u).frame, User(u));
      }
    }
    forall g | g in s.uses ensures lo <= g < hi && InUse(mem, pd, g, s.uses[g]) {
      assert InUse(s.mem, pd, g, s.uses[g]);
    }
  }

  lemma CopiedMore(pd: nat, s: State, w: State, x: State, va: nat, p: seq<int>, buf: nat, at: nat, n: nat)
    requires Copied(pd, s, w, va, p, buf) && at == va + buf && 0 < n && buf + n <= |p| && n <= PGSIZE - at % PGSIZE
    requires at + n <= KERNBASE
    requires WholePages(w.mem, pd) && Lookup(w.mem, pd, at / PGSIZE).Pte? && x.free == w.free && x.uses == w.uses
    requires WholeFrame(PageAt(w.mem, pd, at / PGSIZE))
    requires forall u :: Lookup(x.mem, pd, u) == Lookup(w.mem, pd, u)
    requires forall u | 0 <= u < USERPAGES ::
      PageAt(x.mem, pd, u) ==
        if u == at / PGSIZE then Page(Put(PageAt(w.mem, pd, u).bytes, at % PGSIZE, p, buf, n))
        else PageAt(w.mem, pd, u)
    ensures WholePages(x.mem, pd) && Copied(pd, s, x, va, p, buf + n)
  {
    forall y | 0 <= y < KERNBASE && Lookup(s.mem, pd, y / PGSIZE).Pte?
      ensures UserByte(x.mem, pd, y) == if va <= y < va + buf + n then p[y - va] else UserByte(s.mem, pd, y)
    {
      AddressPage(y);
      SamePageBytes(y, at, n);
    }
    forall v | 0 <= v < USERPAGES && Lookup(x.mem, pd, v).Pte? ensures WholeFrame(PageAt(x.mem, pd, v)) {
      assert WholeFrame(PageAt(w.mem, pd, v));
    }
  }

  lemma SamePageBytes(y: nat, at: nat, n: nat)
    requires n <= PGSIZE - at % PGSIZE
    ensures at <= y < at + n ==> y / PGSIZE == at / PGSIZE
    ensures y / PGSIZE == at / PGSIZE ==> y % PGSIZE - at % PGSIZE == y - at
  {
  }

  // ----- setupkvm -----

  /** One row of the kernel's map; addresses end at 2^32, which is 0. */
  datatype Kmap = Kmap(virt: nat, start: nat, end: nat, perm: nat) {
    function Size(): nat { (end - start) % 0x1_0000_0000 }
    predicate Has(v: nat) { virt / PGSIZE <= v && v * PGSIZE < virt + Size() }
  }

  /** Rows are above KERNBASE, page-aligned, not empty, and do not overlap. */
  ghost predicate KmapOk(kmap: seq<Kmap>) {
    && (forall k | 0 <= k < |kmap| :: RowOk(kmap[k]))
    && forall i, j | 0 <= i < j < |kmap| ::
         kmap[i].virt + kmap[i].Size() <= kmap[j].virt || kmap[j].virt + kmap[j].Size() <= kmap[i].virt
  }

  predicate RowOk(k: Kmap) {
    && KERNBASE <= k.virt && k.virt % PGSIZE == 0 && k.start % PGSIZE == 0 && 0 < k.Size()
    && k.virt + k.Size() <= 0x1_0000_0000
  }

  /** The first n rows are mapped, each page to its frame, and nothing else is. */
  ghost predicate KernelOnly(mem: Memory, pd: nat, kmap: seq<Kmap>, n: nat)
    requires n <= |kmap|
  {
    && (forall k, v: nat | 0 <= k < n && kmap[k].Has(v) ::
         Lookup(mem, pd, v) == Pte(kmap[k].start / PGSIZE + (v - kmap[k].virt / PGSIZE), kmap[k].perm))
    && forall v | Lookup(mem, pd, v).Pte? :: exists k :: 0 <= k < n && kmap[k].Has(v)
  }

  // ----- the tables the kernel's map takes -----

  /** The directory entries of the row's pages are those from RowFirst to before RowEnd. */
  function RowFirst(k: Kmap): nat { Dir(k.virt / PGSIZE) }

  function RowEnd(k: Kmap): nat {
    if k.Size() == 0 then RowFirst(k) else DirEnd(k.virt / PGSIZE, LastPage(k.virt, k.Size()) + 1)
  }

  predicate RowDir(k: Kmap, i: nat) {
    RowFirst(k) <= i < RowEnd(k)
  }

  predicate Covered(kmap: seq<Kmap>, n: nat, i: nat) {
    n <= |kmap| && exists k :: 0 <= k < n && RowDir(kmap[k], i)
  }

  /** Directory entries first .. end - 1 that belong to no page of the first n rows. */
  ghost function Fresh(kmap: seq<Kmap>, n: nat, first: nat, end: nat): nat {
    if end <= first then 0 else Fresh(kmap, n, first, end - 1) + if Covered(kmap, n, end - 1) then 0 else 1
  }

  /** The tables of the first n rows, each counted once. */
  ghost function KernelTables(kmap: seq<Kmap>, n: nat): nat
    requires n <= |kmap|
  {
    if n == 0 then 0
    else KernelTables(kmap, n - 1) + Fresh(kmap, n - 1, RowFirst(kmap[n - 1]), RowEnd(kmap[n - 1]))
  }

  /** The directory has a table for just the pages of the first n rows, and they and the
      directory have each taken one free frame. */
  ghost predicate KernelTook(pd: nat, s: State, w: State, kmap: seq<Kmap>, n: nat)
    requires n <= |kmap|
  {
    && |w.free| + 1 + KernelTables(kmap, n) == |s.free|
    && forall i | 0 <= i < NENTRIES :: HasTable(w.mem, pd, i) <==> Covered(kmap, n, i)
  }

  lemma {:induction false} MissingIsFresh(mem: Memory, pd: nat, kmap: seq<Kmap>, n: nat, first: nat, end: nat)
    requires end <= NENTRIES && forall i | 0 <= i < NENTRIES :: HasTable(mem, pd, i) <==> Covered(kmap, n, i)
    ensures Missing(mem, pd, first, end) == Fresh(kmap, n, first, end)
  {
    if first < end {
      MissingIsFresh(mem, pd, kmap, n, first, end - 1);
    }
  }

  lemma {:induction false} KernelTablesGrow(kmap: seq<Kmap>, n: nat, m: nat)
    requires n <= m <= |kmap|
    ensures KernelTables(kmap, n) <= KernelTables(kmap, m)
  {
    if n < m {
      KernelTablesGrow(kmap, n, m - 1);
    }
  }

  lemma RowDirs(k: Kmap)
    requires RowOk(k)
    ensures k.virt / PGSIZE <= LastPage(k.virt, k.Size()) < ALLPAGES && RowEnd(k) <= NENTRIES
    ensures RowEnd(k) == DirEnd(k.virt / PGSIZE, LastPage(k.virt, k.Size()) + 1)
  {
    PageBounds(k.virt, k.Size());
  }

  lemma KernelShort(
      pd: nat, s: State, w: State, x: State, kmap: seq<Kmap>, n: nat, v: nat, end: nat, to: nat)
    requires n < |kmap| && KernelTook(pd, s, w, kmap, n) && RowEnd(kmap[n]) <= NENTRIES
    requires Dir(v) == RowFirst(kmap[n]) && DirEnd(v, to) == RowEnd(kmap[n]) && v <= end < to && Dir(end) < NENTRIES
    requires Took(pd, w, x, v, end, 0) && x.free == [] && !HasTable(x.mem, pd, Dir(end))
    ensures 1 + KernelTables(kmap, |kmap|) > |s.free|
  {
    TableShort(pd, w, x, v, end, to);
    MissingIsFresh(w.mem, pd, kmap, n, RowFirst(kmap[n]), RowEnd(kmap[n]));
    KernelTablesGrow(kmap, n + 1, |kmap|);
  }

  lemma KernelTookMore(pd: nat, s: State, w: State, x: State, kmap: seq<Kmap>, n: nat, next: nat, end: nat)
    requires n < |kmap| && next == n + 1 && KernelTook(pd, s, w, kmap, n) && RowOk(kmap[n])
    requires end == LastPage(kmap[n].virt, kmap[n].Size()) + 1 && Took(pd, w, x, kmap[n].virt / PGSIZE, end, 0)
    ensures KernelTook(pd, s, x, kmap, next)
  {
    var v := kmap[n].virt / PGSIZE;
    RowDirs(kmap[n]);
    MissingIsFresh(w.mem, pd, kmap, n, RowFirst(kmap[n]), RowEnd(kmap[n]));
    forall i | 0 <= i < NENTRIES ensures HasTable(x.mem, pd, i) <==> Covered(kmap, next, i) {
      CoveredNext(kmap, n, i);
    }
  }

  lemma CoveredNext(kmap: seq<Kmap>, n: nat, i: nat)
    requires n < |kmap|
    ensures Covered(kmap, n + 1, i) <==> Covered(kmap, n, i) || RowDir(kmap[n], i)
  {
    if RowDir(kmap[n], i) {
      assert 0 <= n < n + 1;
    }
  }

  lemma NewDirectory(lo: nat, hi: nat, s: State, kmap: seq<Kmap>)
    requires 0 < lo && PoolOk(lo, hi, s.free) && s.free != []
    ensures var pd := s.free[0];
      var w := State(s.mem[pd := EmptyTable()], s.free[1..], map[pd := Root]);
      VmOk(lo, hi, pd, w) && Held(w) == FreeSet(s) && KernelOnly(w.mem, pd, kmap, 0) && KernelTook(pd, s, w, kmap, 0)
  {
    var pd := s.free[0];
    var w := State(s.mem[pd := EmptyTable()], s.free[1..], map[pd := Root]);
    forall k | 0 <= k < |w.free| ensures w.free[k] == s.free[k + 1] && w.free[k] != pd {
    }
    assert s.free == [pd] + w.free;
    assert forall i :: Ent(w.mem, pd, i).Absent?;
    assert forall v :: Lookup(w.mem, pd, v).Absent?;
    assert forall g :: g in Held(w) <==> g in FreeSet(s);
  }

  lemma RowPages(k: Kmap, v: nat)
    requires RowOk(k)
    ensures k.Has(v) <==> k.virt / PGSIZE <= v <= LastPage(k.virt, k.Size())
    ensures k.Has(v) ==> k.virt <= v * PGSIZE < k.virt + k.Size()
    ensures k.virt / PGSIZE >= USERPAGES
  {
  }

  lemma NoOverlap(kmap: seq<Kmap>, i: nat, n: nat, v: nat)
    requires KmapOk(kmap) && i < n < |kmap| && kmap[i].Has(v)
    ensures !kmap[n].Has(v)
  {
    assert RowOk(kmap[i]) && RowOk(kmap[n]);
    RowPages(kmap[n], v);
    RowPages(kmap[i], v);
  }

  lemma NotYetMapped(pd: nat, w: State, kmap: seq<Kmap>, n: nat, v: nat)
    requires KmapOk(kmap) && n < |kmap| && KernelOnly(w.mem, pd, kmap, n) && kmap[n].Has(v)
    ensures Lookup(w.mem, pd, v).Absent?
  {
    if Lookup(w.mem, pd, v).Pte? {
      var i :| 0 <= i < n && kmap[i].Has(v);
      NoOverlap(kmap, i, n, v);
    }
  }

  /** Below KERNBASE nothing was mapped, so nothing the row took was held before. */
  lemma KernelFrames(v: nat, end: nat, f: nat)
    requires v >= USERPAGES
    ensures UserFrames(v, end, f) == {}
  {
    if v < end {
      KernelFrames(v, end - 1, f);
    }
  }

  lemma KernelMore(
      pd: nat, w: State, x: State, kmap: seq<Kmap>, n: nat, next: nat, end: nat, r: MapResult)
    requires KmapOk(kmap) && n < |kmap| && next == n + 1 && KernelOnly(w.mem, pd, kmap, n) && RowOk(kmap[n])
    requires Mapping(pd, w, x, kmap[n].virt / PGSIZE, end, kmap[n].start / PGSIZE, kmap[n].perm)
    requires kmap[n].virt / PGSIZE <= end
    requires
      if r == Mapped then end == LastPage(kmap[n].virt, kmap[n].Size()) + 1
      else end <= LastPage(kmap[n].virt, kmap[n].Size())
    requires r == Remap ==> Lookup(w.mem, pd, end).Pte?
    ensures Held(x) == Held(w) && r != Remap
    ensures r == Mapped ==> KernelOnly(x.mem, pd, kmap, next)
  {
    RowPages(kmap[n], end);
    KernelFrames(kmap[n].virt / PGSIZE, end, kmap[n].start / PGSIZE);
    if kmap[n].Has(end) {
      NotYetMapped(pd, w, kmap, n, end);
    }
    if r == Mapped {
      RowMapped(pd, w, x, kmap, n, next, end);
    }
  }

  lemma RowMapped(pd: nat, w: State, x: State, kmap: seq<Kmap>, n: nat, next: nat, end: nat)
    requires KmapOk(kmap) && n < |kmap| && next == n + 1 && KernelOnly(w.mem, pd, kmap, n) && RowOk(kmap[n])
    requires Mapping(pd, w, x, kmap[n].virt / PGSIZE, end, kmap[n].start / PGSIZE, kmap[n].perm)
    requires end == LastPage(kmap[n].virt, kmap[n].Size()) + 1
    ensures KernelOnly(x.mem, pd, kmap, next)
  {
    forall i, v: nat | 0 <= i < n && kmap[i].Has(v) ensures !kmap[n].Has(v) {
      NoOverlap(kmap, i, n, v);
    }
    forall v: nat ensures kmap[n].Has(v) <==> kmap[n].virt / PGSIZE <= v < end {
      RowPages(kmap[n], v);
    }
    forall v | Lookup(x.mem, pd, v).Pte? ensures exists i :: 0 <= i < next && kmap[i].Has(v) {
      if !kmap[n].Has(v) {
        var i :| 0 <= i < n && kmap[i].Has(v);
      }
    }
  }
}
