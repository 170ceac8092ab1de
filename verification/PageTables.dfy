/** Two-level page tables in page frames (section 4.3 of Intel SDM volume 3A), the frame
    pool they come from, and who owns which frame. */
module PageTables {
  import opened Blocks

  const NENTRIES := 1024
  /** Pages below KERNBASE. */
  const USERPAGES := 0x80000

  const PTE_W := 2
  const PTE_U := 4

  /** A present entry is writable, and open to user code. */
  predicate HasW(perm: nat) {
    perm / PTE_W % 2 == 1
  }

  predicate HasU(perm: nat) {
    perm / PTE_U % 2 == 1
  }

  /** A directory or table entry, the bits PTE_W and PTE_U in perm; zero bytes read as Absent. */
  datatype Pte = Absent | Pte(frame: nat, perm: nat)

  type Entries = t: seq<Pte> | |t| == NENTRIES witness seq(NENTRIES, i => Absent)

  /** What a frame is being used for: a directory or table, or plain bytes. */
  datatype Frame = Table(ptes: Entries) | Page(bytes: seq<int>)

  type Memory = map<nat, Frame>

  function EmptyTable(): Frame {
    Table(seq(NENTRIES, i => Absent))
  }

  function ZeroPage(): Frame {
    Page(seq(4096, i => 0))
  }

  /** Entry i of the table in frame f. */
  function Ent(mem: Memory, f: nat, i: nat): Pte {
    if f in mem && mem[f].Table? && i < NENTRIES then mem[f].ptes[i] else Absent
  }

  function WithEnt(mem: Memory, f: nat, i: nat, e: Pte): Memory
    requires f in mem && mem[f].Table? && i < NENTRIES
  {
    mem[f := Table(mem[f].ptes[i := e])]
  }

  /** The entry for page v = 1024 * i + j: entry j of the table that entry i of the directory names. */
  function Leaf(mem: Memory, pd: nat, i: nat, j: nat): Pte {
    var de := Ent(mem, pd, i);
    if de.Pte? then Ent(mem, de.frame, j) else Absent
  }

  function Dir(v: nat): nat { v / NENTRIES }
  function Idx(v: nat): nat { v % NENTRIES }

  /** The page table as a partial map on pages. */
  function Lookup(mem: Memory, pd: nat, v: nat): Pte {
    Leaf(mem, pd, Dir(v), Idx(v))
  }

  /** User code may read page v, and write it: both entries on the way to it say so. */
  predicate UserReads(mem: Memory, pd: nat, v: nat) {
    var de, e := Ent(mem, pd, Dir(v)), Lookup(mem, pd, v);
    de.Pte? && HasU(de.perm) && e.Pte? && HasU(e.perm)
  }

  predicate UserWrites(mem: Memory, pd: nat, v: nat) {
    var de, e := Ent(mem, pd, Dir(v)), Lookup(mem, pd, v);
    UserReads(mem, pd, v) && HasW(de.perm) && HasW(e.perm)
  }

  /** What an address space uses a frame for. */
  datatype Use = Root | Tab(i: nat) | User(v: nat)

  type Uses = map<nat, Use>

  /** Memory, the free list, and the frames of one address space. */
  datatype State = State(mem: Memory, free: seq<nat>, uses: Uses)

  /** Directory, tables and user pages are in frames of their own, none of them free; the
      directory forbids nothing. */
  ghost predicate VmOk(lo: nat, hi: nat, pd: nat, s: State) {
    match s case State(mem, free, uses) =>
      && 0 < lo && Distinct(free) && (forall k | 0 <= k < |free| :: lo <= free[k] < hi && free[k] !in uses)
      && pd in uses && uses[pd] == Root && pd in mem && mem[pd].Table?
      && (forall i | 0 <= i < NENTRIES && Ent(mem, pd, i).Pte? :: TableOk(mem, uses, Ent(mem, pd, i).frame, i))
      && (forall i | 0 <= i < NENTRIES && Ent(mem, pd, i).Pte? :: OpenDir(Ent(mem, pd, i).perm))
      && (forall v | 0 <= v < USERPAGES && Lookup(mem, pd, v).Pte? :: UsedAs(uses, Lookup(mem, pd, v).frame, User(v)))
      && forall f | f in uses :: lo <= f < hi && InUse(mem, pd, f, uses[f])
  }

  predicate OpenDir(perm: nat) {
    HasW(perm) && HasU(perm)
  }

  /** So what user code may do with a page is what the page's own entry says. */
  lemma LeafDecides(lo: nat, hi: nat, pd: nat, s: State, v: nat)
    requires VmOk(lo, hi, pd, s) && Lookup(s.mem, pd, v).Pte?
    ensures UserReads(s.mem, pd, v) <==> HasU(Lookup(s.mem, pd, v).perm)
    ensures UserWrites(s.mem, pd, v) <==> HasU(Lookup(s.mem, pd, v).perm) && HasW(Lookup(s.mem, pd, v).perm)
  {
    assert OpenDir(Ent(s.mem, pd, Dir(v)).perm);
  }

  /** The permissions the kernel gives: user data, and a page that user code may not use. */
  lemma Permissions()
    ensures HasW(PTE_W + PTE_U) && HasU(PTE_W + PTE_U) && HasW(PTE_W) && !HasU(PTE_W) && !HasU(0)
  {
  }

  predicate UsedAs(uses: Uses, f: nat, u: Use) {
    f in uses && uses[f] == u
  }

  predicate TableOk(mem: Memory, uses: Uses, f: nat, i: nat) {
    UsedAs(uses, f, Tab(i)) && f in mem && mem[f].Table?
  }

  /** The page table leads to frame f for the given use. */
  predicate InUse(mem: Memory, pd: nat, f: nat, u: Use) {
    match u
    case Root => f == pd
    case Tab(i) => i < NENTRIES && Ent(mem, pd, i).Pte? && Ent(mem, pd, i).frame == f
    case User(v) => v < USERPAGES && Lookup(mem, pd, v).Pte? && Lookup(mem, pd, v).frame == f
  }

  /** The frames that are free or in use: what no operation may lose or gain. */
  ghost function Held(s: State): set<nat> {
    FreeSet(s) + s.uses.Keys
  }

  ghost function FreeSet(s: State): set<nat> {
    set f | f in s.free
  }

  // ----- how many tables a range of pages takes -----

  predicate HasTable(mem: Memory, pd: nat, i: nat) {
    Ent(mem, pd, i).Pte?
  }

  /** The directory entry after the last one of the pages from .. to - 1. */
  function DirEnd(from: nat, to: nat): nat {
    if to <= from then Dir(from) else Dir(to - 1) + 1
  }

  /** Directory entries first .. end - 1 without a table. */
  function Missing(mem: Memory, pd: nat, first: nat, end: nat): nat {
    if end <= first then 0 else Missing(mem, pd, first, end - 1) + if HasTable(mem, pd, end - 1) then 0 else 1
  }

  /** From s to w the pages from .. to - 1 have got the tables they lacked, nothing else has,
      and each of those tables and so many pages has taken a frame off the free list. */
  ghost predicate Took(pd: nat, s: State, w: State, from: nat, to: nat, pages: nat) {
    match w case State(mem, free, _) =>
      && |free| + Missing(s.mem, pd, Dir(from), DirEnd(from, to)) + pages == |s.free|
      && forall i | 0 <= i < NENTRIES ::
        HasTable(mem, pd, i) <==> HasTable(s.mem, pd, i) || (Dir(from) <= i < DirEnd(from, to))
  }

  lemma TookNothing(pd: nat, s: State, from: nat)
    ensures Took(pd, s, s, from, from, 0)
  {
  }

  /** One more page, whose table was there or is now. */
  lemma TookNext(pd: nat, s: State, w: State, x: State, from: nat, to: nat, next: nat, pages: nat)
    requires Took(pd, s, w, from, to, pages) && Took(pd, w, x, to, next, 0) && next == to + 1
    requires from <= to && Dir(to) < NENTRIES
    ensures Took(pd, s, x, from, next, pages)
  {
    assert Missing(w.mem, pd, Dir(to), Dir(to) + 1) == if HasTable(w.mem, pd, Dir(to)) then 0 else 1;
    if from < to {
      assert Dir(from) <= Dir(to - 1) <= Dir(to) <= Dir(to - 1) + 1;
    }
  }

  lemma {:induction false} MissingSplit(mem: Memory, pd: nat, first: nat, mid: nat, end: nat)
    requires first <= mid <= end
    ensures Missing(mem, pd, first, end) == Missing(mem, pd, first, mid) + Missing(mem, pd, mid, end)
  {
    if mid < end {
      MissingSplit(mem, pd, first, mid, end - 1);
    }
  }

  lemma {:induction false} MissingSame(mem: Memory, other: Memory, pd: nat, first: nat, end: nat)
    requires forall i | first <= i < end :: HasTable(mem, pd, i) == HasTable(other, pd, i)
    ensures Missing(mem, pd, first, end) == Missing(other, pd, first, end)
  {
    if first < end {
      MissingSame(mem, other, pd, first, end - 1);
    }
  }

  // ----- the steps -----

  /** Frame f, in nobody's hands, becomes the table for directory entry i. */
  ghost function WithTable(s: State, pd: nat, i: nat, f: nat): State
    requires pd in s.mem && s.mem[pd].Table? && i < NENTRIES && f != pd
  {
    State(WithEnt(s.mem[f := EmptyTable()], pd, i, Pte(f, PTE_W + PTE_U)), s.free, s.uses[f := Tab(i)])
  }

  predicate Loose(s: State, f: nat) {
    f !in s.uses && forall k | 0 <= k < |s.free| :: s.free[k] != f
  }

  lemma NewTableLookup(s: State, lo: nat, hi: nat, pd: nat, i: nat, f: nat, v: nat)
    requires VmOk(lo, hi, pd, s) && i < NENTRIES && Ent(s.mem, pd, i).Absent? && Loose(s, f)
    ensures f != pd && Lookup(WithTable(s, pd, i, f).mem, pd, v) == Lookup(s.mem, pd, v)
  {
    var w := WithTable(s, pd, i, f);
    var de := Ent(s.mem, pd, Dir(v));
    if Dir(v) < NENTRIES && de.Pte? {
      assert TableOk(s.mem, s.uses, de.frame, Dir(v));
    }
  }

  lemma NewTable(s: State, lo: nat, hi: nat, pd: nat, i: nat, f: nat)
    requires VmOk(lo, hi, pd, s) && i < NENTRIES && Ent(s.mem, pd, i).Absent? && Loose(s, f) && lo <= f < hi
    ensures VmOk(lo, hi, pd, WithTable(s, pd, i, f))
  {
    hide HasU, HasW;
    Permissions();
    var w := WithTable(s, pd, i, f);
    forall v | 0 <= v < USERPAGES ensures Lookup(w.mem, pd, v) == Lookup(s.mem, pd, v) {
      NewTableLookup(s, lo, hi, pd, i, f, v);
    }
    forall k | 0 <= k < NENTRIES && Ent(w.mem, pd, k).Pte? ensures TableOk(w.mem, w.uses, Ent(w.mem, pd, k).frame, k) {
      if k != i {
        assert TableOk(s.mem, s.uses, Ent(s.mem, pd, k).frame, k);
      }
    }
    forall g | g in w.uses ensures lo <= g < hi && InUse(w.mem, pd, g, w.uses[g]) {
      if g != f {
        assert InUse(s.mem, pd, g, s.uses[g]);
      }
    }
  }

  lemma SamePage(u: nat, v: nat)
    requires Dir(u) == Dir(v) && Idx(u) == Idx(v)
    ensures u == v
  {
  }

  /** Writing one entry of one table changes the mapping of that page and no other. */
  lemma EntryLookup(s: State, lo: nat, hi: nat, pd: nat, v: nat, e: Pte, u: nat)
    requires VmOk(lo, hi, pd, s) && Ent(s.mem, pd, Dir(v)).Pte?
    ensures var t := Ent(s.mem, pd, Dir(v)).frame;
      && t in s.mem && s.mem[t].Table? && t != pd && t in s.uses
      && Lookup(WithEnt(s.mem, t, Idx(v), e), pd, u) == if u == v then e else Lookup(s.mem, pd, u)
  {
    var t := Ent(s.mem, pd, Dir(v)).frame;
    assert TableOk(s.mem, s.uses, t, Dir(v));
    var de := Ent(s.mem, pd, Dir(u));
    if de.Pte? {
      assert TableOk(s.mem, s.uses, de.frame, Dir(u));
    }
    if Dir(u) == Dir(v) && Idx(u) == Idx(v) {
      SamePage(u, v);
    }
  }

  /** Page v mapped to frame f; a user page's frame is then in use. */
  ghost function WithLeaf(s: State, pd: nat, v: nat, f: nat, perm: nat): State
    requires Ent(s.mem, pd, Dir(v)).Pte? && Ent(s.mem, pd, Dir(v)).frame in s.mem
    requires s.mem[Ent(s.mem, pd, Dir(v)).frame].Table?
  {
    State(WithEnt(s.mem, Ent(s.mem, pd, Dir(v)).frame, Idx(v), Pte(f, perm)), s.free,
      if v < USERPAGES then s.uses[f := User(v)] else s.uses)
  }

  lemma NewLeaf(s: State, lo: nat, hi: nat, pd: nat, v: nat, f: nat, perm: nat)
    requires VmOk(lo, hi, pd, s) && Ent(s.mem, pd, Dir(v)).Pte? && Lookup(s.mem, pd, v).Absent?
    requires v < USERPAGES ==> Loose(s, f) && lo <= f < hi
    ensures var t := Ent(s.mem, pd, Dir(v)).frame; t in s.mem && s.mem[t].Table? && t in s.uses
    ensures VmOk(lo, hi, pd, WithLeaf(s, pd, v, f, perm))
    ensures forall u ::
      Lookup(WithLeaf(s, pd, v, f, perm).mem, pd, u) == if u == v then Pte(f, perm) else Lookup(s.mem, pd, u)
  {
    EntryLookup(s, lo, hi, pd, v, Pte(f, perm), v);
    var w := WithLeaf(s, pd, v, f, perm);
    forall u ensures Lookup(w.mem, pd, u) == if u == v then Pte(f, perm) else Lookup(s.mem, pd, u) {
      EntryLookup(s, lo, hi, pd, v, Pte(f, perm), u);
    }
    forall k | 0 <= k < NENTRIES && Ent(w.mem, pd, k).Pte? ensures TableOk(w.mem, w.uses, Ent(w.mem, pd, k).frame, k) {
      assert TableOk(s.mem, s.uses, Ent(s.mem, pd, k).frame, k);
    }
    forall g | g in w.uses ensures lo <= g < hi && InUse(w.mem, pd, g, w.uses[g]) {
      if g in s.uses {
        assert InUse(s.mem, pd, g, s.uses[g]);
      }
    }
    forall u | 0 <= u < USERPAGES && Lookup(w.mem, pd, u).Pte?
      ensures UsedAs(w.uses, Lookup(w.mem, pd, u).frame, User(u))
    {
      assert u != v ==> UsedAs(s.uses, Lookup(s.mem, pd, u).frame, User(u));
    }
  }

  /** User page v unmapped, its frame filled with junk and put on the free list. */
  ghost function WithoutLeaf(s: State, pd: nat, v: nat, junk: Frame): State
    requires Ent(s.mem, pd, Dir(v)).Pte? && Ent(s.mem, pd, Dir(v)).frame in s.mem
    requires s.mem[Ent(s.mem, pd, Dir(v)).frame].Table?
    requires Lookup(s.mem, pd, v).Pte?
  {
    var t, f := Ent(s.mem, pd, Dir(v)).frame, Lookup(s.mem, pd, v).frame;
    State(WithEnt(s.mem, t, Idx(v), Absent)[f := junk], [f] + s.free, s.uses - {f})
  }

  lemma DropLeaf(s: State, lo: nat, hi: nat, pd: nat, v: nat, junk: Frame)
    requires VmOk(lo, hi, pd, s) && v < USERPAGES && Lookup(s.mem, pd, v).Pte?
    ensures var t := Ent(s.mem, pd, Dir(v)).frame; t in s.mem && s.mem[t].Table? && t in s.uses
    ensures UsedAs(s.uses, Lookup(s.mem, pd, v).frame, User(v)) && lo <= Lookup(s.mem, pd, v).frame < hi
    ensures VmOk(lo, hi, pd, WithoutLeaf(s, pd, v, junk))
    ensures forall u ::
      Lookup(WithoutLeaf(s, pd, v, junk).mem, pd, u) == if u == v then Absent else Lookup(s.mem, pd, u)
    ensures Held(WithoutLeaf(s, pd, v, junk)) == Held(s)
  {
    EntryLookup(s, lo, hi, pd, v, Absent, v);
    var f, w := Lookup(s.mem, pd, v).frame, WithoutLeaf(s, pd, v, junk);
    assert UsedAs(s.uses, f, User(v));
    forall k | 0 <= k < NENTRIES && Ent(s.mem, pd, k).Pte?
      ensures Ent(s.mem, pd, k).frame != f && TableOk(s.mem, s.uses, Ent(s.mem, pd, k).frame, k)
    {
      assert TableOk(s.mem, s.uses, Ent(s.mem, pd, k).frame, k);
    }
    forall u ensures Lookup(w.mem, pd, u) == if u == v then Absent else Lookup(s.mem, pd, u) {
      EntryLookup(s, lo, hi, pd, v, Absent, u);
    }
    forall k | 0 <= k < NENTRIES && Ent(w.mem, pd, k).Pte? ensures TableOk(w.mem, w.uses, Ent(w.mem, pd, k).frame, k) {
      assert Ent(w.mem, pd, k) == Ent(s.mem, pd, k);
    }
    forall g | g in w.uses ensures lo <= g < hi && InUse(w.mem, pd, g, w.uses[g]) {
      assert InUse(s.mem, pd, g, s.uses[g]);
    }
    forall u | 0 <= u < USERPAGES && Lookup(w.mem, pd, u).Pte?
      ensures UsedAs(w.uses, Lookup(w.mem, pd, u).frame, User(u))
    {
      assert UsedAs(s.uses, Lookup(s.mem, pd, u).frame, User(u));
    }
    assert forall k | 0 <= k < |w.free| :: w.free[k] == if k == 0 then f else s.free[k - 1];
    assert forall g :: g in w.free <==> g == f || g in s.free;
  }

  // ----- what the process sees -----

  /** The contents of user page v. */
  ghost function PageAt(mem: Memory, pd: nat, v: nat): Frame {
    var e := Lookup(mem, pd, v);
    if e.Pte? && e.frame in mem then mem[e.frame] else Page([])
  }

  predicate Still(before: Memory, after: Memory, f: nat) {
    f in before ==> f in after && after[f] == before[f]
  }

  /** Only tables were added: every mapping, every user page, and every frame in neither the
      pool's nor the address space's hands is as before, and no frame is lost. */
  ghost predicate OnlyTables(pd: nat, s: State, w: State) {
    match w case State(mem, _, _) =>
      && Held(w) == Held(s) && FreeSet(w) <= FreeSet(s) && (forall v :: Lookup(mem, pd, v) == Lookup(s.mem, pd, v))
      && (forall v | 0 <= v < USERPAGES :: PageAt(mem, pd, v) == PageAt(s.mem, pd, v))
      && forall f {:trigger Still(s.mem, mem, f)} | f !in Held(s) :: Still(s.mem, mem, f)
  }

  lemma NotHeld(s: State, f: nat)
    ensures f !in Held(s) <==> Loose(s, f)
  {
    if f in s.free {
      var k :| 0 <= k < |s.free| && s.free[k] == f;
    }
  }

  /** Taking the head of the free list and making it the table for entry i. */
  lemma TableAdded(s: State, lo: nat, hi: nat, pd: nat, i: nat)
    requires VmOk(lo, hi, pd, s) && i < NENTRIES && Ent(s.mem, pd, i).Absent? && s.free != []
    ensures var f, t := s.free[0], s.(free := s.free[1..]);
      && f != pd && VmOk(lo, hi, pd, WithTable(t, pd, i, f)) && OnlyTables(pd, s, WithTable(t, pd, i, f))
      && forall v: nat | Dir(v) == i :: Took(pd, s, WithTable(t, pd, i, f), v, v + 1, 0)
  {
    var f, t := s.free[0], s.(free := s.free[1..]);
    forall k | 0 <= k < |t.free| ensures t.free[k] == s.free[k + 1] && t.free[k] != f {
    }
    assert VmOk(lo, hi, pd, t);
    NewTable(t, lo, hi, pd, i, f);
    var w := WithTable(t, pd, i, f);
    forall v ensures Lookup(w.mem, pd, v) == Lookup(s.mem, pd, v) {
      NewTableLookup(t, lo, hi, pd, i, f, v);
    }
    forall v | 0 <= v < USERPAGES ensures PageAt(w.mem, pd, v) == PageAt(s.mem, pd, v) {
      if Lookup(s.mem, pd, v).Pte? {
        assert UsedAs(s.uses, Lookup(s.mem, pd, v).frame, User(v));
      }
    }
    assert s.free == [f] + t.free;
    forall g ensures g in Held(w) <==> g in Held(s) {
    }
    forall v: nat | Dir(v) == i ensures Took(pd, s, w, v, v + 1, 0) {
      assert Missing(s.mem, pd, i, i + 1) == 1;
    }
  }

  /** The state after page v was mapped to frame f, which for a user page was loose before
      and is now held: nothing else is mapped, moved or changed. */
  ghost predicate LeafAdded(pd: nat, s: State, w: State, v: nat, f: nat, perm: nat) {
    match w case State(mem, free, _) =>
      && Held(w) == (if v < USERPAGES then Held(s) + {f} else Held(s)) && free == s.free
      && (forall u :: Lookup(mem, pd, u) == if u == v then Pte(f, perm) else Lookup(s.mem, pd, u))
      && (forall i :: Ent(mem, pd, i) == Ent(s.mem, pd, i))
      && (forall u | 0 <= u < USERPAGES && u != v :: PageAt(mem, pd, u) == PageAt(s.mem, pd, u))
      && (v < USERPAGES && f in s.mem ==> PageAt(mem, pd, v) == s.mem[f])
      && forall g {:trigger Still(s.mem, mem, g)} | g !in Held(w) :: Still(s.mem, mem, g)
  }

  lemma LeafIsAdded(s: State, lo: nat, hi: nat, pd: nat, v: nat, f: nat, perm: nat)
    requires VmOk(lo, hi, pd, s) && Ent(s.mem, pd, Dir(v)).Pte? && Lookup(s.mem, pd, v).Absent?
    requires v < USERPAGES ==> Loose(s, f) && lo <= f < hi
    ensures var t := Ent(s.mem, pd, Dir(v)).frame; t in s.mem && s.mem[t].Table? && t in s.uses
    ensures VmOk(lo, hi, pd, WithLeaf(s, pd, v, f, perm)) && LeafAdded(pd, s, WithLeaf(s, pd, v, f, perm), v, f, perm)
  {
    NewLeaf(s, lo, hi, pd, v, f, perm);
    var w, t := WithLeaf(s, pd, v, f, perm), Ent(s.mem, pd, Dir(v)).frame;
    assert TableOk(s.mem, s.uses, t, Dir(v));
    forall u | 0 <= u < USERPAGES && u != v ensures PageAt(w.mem, pd, u) == PageAt(s.mem, pd, u) {
      if Lookup(s.mem, pd, u).Pte? {
        assert UsedAs(s.uses, Lookup(s.mem, pd, u).frame, User(u));
      }
    }
  }

  function WithoutU(perm: nat): (q: nat)
    ensures !HasU(q) && (HasW(q) <==> HasW(perm)) && (!HasU(perm) ==> q == perm)
  {
    if HasU(perm) then perm - PTE_U else perm
  }

  /** The entry of page v without PTE_U: it leads to the same frame, and nothing else changes. */
  ghost predicate UserBarred(pd: nat, s: State, w: State, v: nat) {
    match w case State(mem, free, uses) =>
      && free == s.free && uses == s.uses && (forall i :: Ent(mem, pd, i) == Ent(s.mem, pd, i))
      && (forall u :: Lookup(mem, pd, u) ==
            if u == v && Lookup(s.mem, pd, u).Pte?
            then Pte(Lookup(s.mem, pd, u).frame, WithoutU(Lookup(s.mem, pd, u).perm)) else Lookup(s.mem, pd, u))
      && forall u | 0 <= u < USERPAGES :: PageAt(mem, pd, u) == PageAt(s.mem, pd, u)
  }

  lemma PermChanged(s: State, lo: nat, hi: nat, pd: nat, v: nat)
    requires VmOk(lo, hi, pd, s) && Lookup(s.mem, pd, v).Pte?
    ensures var t, e := Ent(s.mem, pd, Dir(v)).frame, Lookup(s.mem, pd, v);
      && t in s.mem && s.mem[t].Table?
      && var w := s.(mem := WithEnt(s.mem, t, Idx(v), Pte(e.frame, WithoutU(e.perm))));
         VmOk(lo, hi, pd, w) && UserBarred(pd, s, w, v)
  {
    hide HasU, HasW, WithoutU;
    var t, e := Ent(s.mem, pd, Dir(v)).frame, Lookup(s.mem, pd, v);
    var f := Pte(e.frame, WithoutU(e.perm));
    assert TableOk(s.mem, s.uses, t, Dir(v));
    var w := s.(mem := WithEnt(s.mem, t, Idx(v), f));
    forall u ensures Lookup(w.mem, pd, u) == if u == v then f else Lookup(s.mem, pd, u) {
      EntryLookup(s, lo, hi, pd, v, f, u);
    }
    forall k | 0 <= k < NENTRIES && Ent(w.mem, pd, k).Pte? ensures TableOk(w.mem, w.uses, Ent(w.mem, pd, k).frame, k) {
      assert TableOk(s.mem, s.uses, Ent(s.mem, pd, k).frame, k);
    }
    forall u | 0 <= u < USERPAGES && Lookup(w.mem, pd, u).Pte?
      ensures UsedAs(w.uses, Lookup(w.mem, pd, u).frame, User(u))
    {
      assert UsedAs(s.uses, Lookup(s.mem, pd, u).frame, User(u));
    }
    forall g | g in w.uses ensures lo <= g < hi && InUse(w.mem, pd, g, w.uses[g]) {
      assert InUse(s.mem, pd, g, s.uses[g]);
    }
    forall u | 0 <= u < USERPAGES ensures PageAt(w.mem, pd, u) == PageAt(s.mem, pd, u) {
      if Lookup(s.mem, pd, u).Pte? {
        assert UsedAs(s.uses, Lookup(s.mem, pd, u).frame, User(u));
      }
    }
  }

  /** Unmapping v leaves the other user pages and their contents. */
  lemma DropKeepsPages(s: State, lo: nat, hi: nat, pd: nat, v: nat, junk: Frame, u: nat)
    requires VmOk(lo, hi, pd, s) && v < USERPAGES && Lookup(s.mem, pd, v).Pte? && u < USERPAGES && u != v
    ensures var t := Ent(s.mem, pd, Dir(v)).frame; t in s.mem && s.mem[t].Table?
    ensures PageAt(WithoutLeaf(s, pd, v, junk).mem, pd, u) == PageAt(s.mem, pd, u)
  {
    DropLeaf(s, lo, hi, pd, v, junk);
    var t := Ent(s.mem, pd, Dir(v)).frame;
    assert TableOk(s.mem, s.uses, t, Dir(v));
    if Lookup(s.mem, pd, u).Pte? {
      assert UsedAs(s.uses, Lookup(s.mem, pd, u).frame, User(u));
    }
  }
}
