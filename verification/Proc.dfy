/** The process table: fork, exit, wait, kill, sleep and wakeup as steps of any number of
    processes, one for every stretch that holds ptable.lock and for the unlocked writes of fork. */
module Proc {
  import opened Blocks

  datatype RunState = UNUSED | EMBRYO | SLEEPING | RUNNABLE | RUNNING | ZOMBIE

  /** A wait channel: a process (only wait sleeps on one) or some other address. */
  datatype Chan = NoChan | OfProc(i: nat) | OfOther(a: int)

  datatype Proc = Proc(state: RunState, pid: int, parent: Option<nat>, chan: Chan, killed: bool)

  predicate Live(p: Proc) {
    p.state == SLEEPING || p.state == RUNNABLE || p.state == RUNNING
  }

  /** Where a process is in its kernel code. */
  datatype Pc = User | Asleep | InWait | Forking(np: nat) | Forked(np: nat)

  /** The table, with initproc in slot 0, and the pids wait has returned so far. */
  datatype Table = Table(procs: seq<Proc>, pcs: seq<Pc>, nextpid: int, returned: set<int>)

  // ----- what the loops compute -----

  /** wakeup1. */
  function Woken(ps: seq<Proc>, c: Chan): (r: seq<Proc>)
    ensures |r| == |ps|
    ensures forall i | 0 <= i < |ps| ::
      r[i] == if ps[i].state == SLEEPING && ps[i].chan == c then ps[i].(state := RUNNABLE) else ps[i]
  {
    seq(|ps|, i requires 0 <= i < |ps| =>
      if ps[i].state == SLEEPING && ps[i].chan == c then ps[i].(state := RUNNABLE) else ps[i])
  }

  predicate Child(p: Proc, cur: nat) {
    p.parent == Some(cur)
  }

  predicate HasZombie(ps: seq<Proc>, cur: nat) {
    exists i :: 0 <= i < |ps| && ps[i].state == ZOMBIE && Child(ps[i], cur)
  }

  predicate HasChild(ps: seq<Proc>, cur: nat) {
    exists i :: 0 <= i < |ps| && Child(ps[i], cur)
  }

  /** exit wakes its parent, and init if it passes a zombie on. */
  predicate WokenByExit(ps: seq<Proc>, cur: nat, c: Chan)
    requires cur < |ps| && ps[cur].parent.Some?
  {
    c == OfProc(ps[cur].parent.value) || (c == OfProc(0) && HasZombie(ps, cur))
  }

  /** One entry after exit's loop over the abandoned children. */
  function Abandoned(p: Proc, cur: nat, wake: bool): Proc {
    var q := if Child(p, cur) then p.(parent := Some(0)) else p;
    if wake && q.state == SLEEPING && q.chan == OfProc(0) then q.(state := RUNNABLE) else q
  }

  /** exit, once it holds the lock. */
  function Exited(ps: seq<Proc>, cur: nat): (r: seq<Proc>)
    requires cur < |ps| && ps[cur].parent.Some?
    ensures |r| == |ps|
  {
    var woken := Woken(ps, OfProc(ps[cur].parent.value));
    seq(|ps|, i requires 0 <= i < |ps| =>
      if i == cur then Abandoned(woken[i], cur, HasZombie(woken, cur)).(state := ZOMBIE)
      else Abandoned(woken[i], cur, HasZombie(woken, cur)))
  }

  /** The slot wait empties. */
  function Reaped(): Proc {
    Proc(UNUSED, 0, None, NoChan, false)
  }

  /** The zombies are those before the wakeup. */
  lemma SameZombiesWoken(ps: seq<Proc>, c: Chan, cur: nat)
    ensures HasZombie(Woken(ps, c), cur) == HasZombie(ps, cur)
  {
    if HasZombie(ps, cur) {
      var i :| 0 <= i < |ps| && ps[i].state == ZOMBIE && Child(ps[i], cur);
      assert Woken(ps, c)[i] == ps[i];
    }
  }

  // ----- the invariant -----

  /** A process has a live parent with a smaller pid. */
  predicate Parented(t: Table, i: nat)
    requires i < |t.procs|
  {
    match t.procs[i].parent
    case None => false
    case Some(q) => q < |t.procs| && Live(t.procs[q]) && t.procs[q].pid < t.procs[i].pid
  }

  predicate SlotOk(t: Table, i: nat)
    requires |t.pcs| == |t.procs| && i < |t.procs|
  {
    var p := t.procs[i];
    && (p.state == UNUSED ==> p.parent == None && i != 0)
    && (p.state == EMBRYO ==>
         i != 0 && (p.parent.Some? ==> p.parent.value < |t.pcs| && t.pcs[p.parent.value] == Forked(i)))
    && (p.state == UNUSED || p.state == EMBRYO || p.state == ZOMBIE ==> t.pcs[i] == User)
    && (Live(p) || p.state == ZOMBIE ==> i == 0 || Parented(t, i))
    && (i == 0 ==> Live(p) && p.parent == None)
    && (p.state != UNUSED ==> 0 < p.pid < t.nextpid && p.pid !in t.returned)
    && (p.state == SLEEPING && p.chan.OfProc? ==> p.chan == OfProc(i))
    && (p.state == SLEEPING && p.chan == OfProc(i) ==> t.pcs[i] == InWait && !HasZombie(t.procs, i))
  }

  /** The child a forking process is setting up. */
  predicate ForkOk(t: Table, f: nat, np: nat, linked: bool)
    requires f < |t.procs|
  {
    && np < |t.procs| && t.procs[np].state == EMBRYO && t.procs[f].pid < t.procs[np].pid
    && t.procs[np].parent == if linked then Some(f) else None
  }

  predicate PcOk(t: Table, f: nat)
    requires |t.pcs| == |t.procs| && f < |t.procs|
  {
    match t.pcs[f]
    case Forking(np) => ForkOk(t, f, np, false)
    case Forked(np) => ForkOk(t, f, np, true)
    case _ => true
  }

  function ForkChild(pc: Pc): Option<nat> {
    match pc
    case Forking(np) => Some(np)
    case Forked(np) => Some(np)
    case _ => None
  }

  ghost predicate Inv(t: Table) {
    && |t.pcs| == |t.procs| > 0 && (forall pid | pid in t.returned :: pid < t.nextpid)
    && (forall i | 0 <= i < |t.procs| :: SlotOk(t, i))
    && (forall f | 0 <= f < |t.procs| :: PcOk(t, f))
    && (forall f, g | 0 <= f < g < |t.procs| && ForkChild(t.pcs[f]).Some? :: ForkChild(t.pcs[f]) != ForkChild(t.pcs[g]))
    && (forall i, j | 0 <= i < j < |t.procs| && t.procs[i].state != UNUSED && t.procs[j].state != UNUSED ::
         t.procs[i].pid != t.procs[j].pid)
  }

  // ----- the steps -----

  datatype Step =
    | Dispatch(cur: nat)
    | Yield(cur: nat)
    | Alloc(cur: nat, np: nat)
    | ForkFails(cur: nat)
    | ForkLinks(cur: nat)
    | ForkDone(cur: nat)
    | Exit(cur: nat)
    | Reap(cur: nat, p: nat)
    | NoChildren(cur: nat)
    | WaitSleep(cur: nat)
    | SleepOn(cur: nat, a: int)
    | Awake(cur: nat)
    | Wakeup(a: int)
    | Kill(p: nat)

  predicate Runs(t: Table, cur: nat, pc: Pc) {
    |t.pcs| == |t.procs| && cur < |t.procs| && t.procs[cur].state == RUNNING && t.pcs[cur] == pc
  }

  /** cur is in wait: it has just called it, or has been woken in it. */
  predicate Waits(t: Table, cur: nat) {
    Runs(t, cur, User) || Runs(t, cur, InWait)
  }

  /** The first zombie child, which wait returns. */
  predicate FirstZombie(ps: seq<Proc>, cur: nat, p: nat) {
    && p < |ps| && ps[p].state == ZOMBIE && Child(ps[p], cur)
    && forall i | 0 <= i < p :: !(ps[i].state == ZOMBIE && Child(ps[i], cur))
  }

  predicate FirstUnused(ps: seq<Proc>, np: nat) {
    np < |ps| && ps[np].state == UNUSED && forall i | 0 <= i < np :: ps[i].state != UNUSED
  }

  predicate Enabled(t: Table, s: Step) {
    && |t.pcs| == |t.procs|
    && match s
       case Dispatch(cur) => cur < |t.procs| && t.procs[cur].state == RUNNABLE
       case Yield(cur) => cur < |t.procs| && t.procs[cur].state == RUNNING
       case Alloc(cur, np) => Runs(t, cur, User) && FirstUnused(t.procs, np)
       case ForkFails(cur) =>
         cur < |t.procs| && t.pcs[cur].Forking? && Runs(t, cur, t.pcs[cur]) && t.pcs[cur].np < |t.procs|
       case ForkLinks(cur) =>
         cur < |t.procs| && t.pcs[cur].Forking? && Runs(t, cur, t.pcs[cur]) && t.pcs[cur].np < |t.procs|
       case ForkDone(cur) =>
         cur < |t.procs| && t.pcs[cur].Forked? && Runs(t, cur, t.pcs[cur]) && t.pcs[cur].np < |t.procs|
       case Exit(cur) => cur != 0 && Runs(t, cur, User) && t.procs[cur].parent.Some?
       case Reap(cur, p) => Waits(t, cur) && FirstZombie(t.procs, cur, p)
       case NoChildren(cur) =>
         Waits(t, cur) && !HasZombie(t.procs, cur) && (!HasChild(t.procs, cur) || t.procs[cur].killed)
       case WaitSleep(cur) =>
         Waits(t, cur) && !HasZombie(t.procs, cur) && HasChild(t.procs, cur) && !t.procs[cur].killed
       case SleepOn(cur, a) => Runs(t, cur, User)
       case Awake(cur) => Runs(t, cur, Asleep)
       case Wakeup(a) => true
       case Kill(p) => p < |t.procs|
  }

  /** The table after an enabled step. */
  function Do(t: Table, s: Step): Table
    requires Enabled(t, s)
  {
    match s
    case Dispatch(cur) => t.(procs := t.procs[cur := t.procs[cur].(state := RUNNING)])
    case Yield(cur) => t.(procs := t.procs[cur := t.procs[cur].(state := RUNNABLE)])
    case Alloc(cur, np) =>
      t.(procs := t.procs[np := t.procs[np].(state := EMBRYO, pid := t.nextpid)],
        nextpid := t.nextpid + 1, pcs := t.pcs[cur := Forking(np)])
    case ForkFails(cur) =>
      t.(procs := t.procs[t.pcs[cur].np := t.procs[t.pcs[cur].np].(state := UNUSED)], pcs := t.pcs[cur := User])
    case ForkLinks(cur) =>
      t.(procs := t.procs[t.pcs[cur].np := t.procs[t.pcs[cur].np].(parent := Some(cur))],
        pcs := t.pcs[cur := Forked(t.pcs[cur].np)])
    case ForkDone(cur) =>
      t.(procs := t.procs[t.pcs[cur].np := t.procs[t.pcs[cur].np].(state := RUNNABLE)], pcs := t.pcs[cur := User])
    case Exit(cur) => t.(procs := Exited(t.procs, cur))
    case Reap(cur, p) =>
      t.(procs := t.procs[cur := t.procs[cur].(chan := NoChan)][p := Reaped()], pcs := t.pcs[cur := User],
        returned := t.returned + {t.procs[p].pid})
    case NoChildren(cur) => t.(procs := t.procs[cur := t.procs[cur].(chan := NoChan)], pcs := t.pcs[cur := User])
    case WaitSleep(cur) =>
      t.(procs := t.procs[cur := t.procs[cur].(chan := OfProc(cur), state := SLEEPING)], pcs := t.pcs[cur := InWait])
    case SleepOn(cur, a) =>
      t.(procs := t.procs[cur := t.procs[cur].(chan := OfOther(a), state := SLEEPING)], pcs := t.pcs[cur := Asleep])
    case Awake(cur) => t.(procs := t.procs[cur := t.procs[cur].(chan := NoChan)], pcs := t.pcs[cur := User])
    case Wakeup(a) => t.(procs := Woken(t.procs, OfOther(a)))
    case Kill(p) =>
      t.(procs := t.procs[p := t.procs[p].(killed := true,
        state := if t.procs[p].state == SLEEPING then RUNNABLE else t.procs[p].state)])
  }

  // ----- every step keeps the invariant -----

  /** A step that moves cur among the live states, or wakes others, and touches no parent, pid or zombie. */
  ghost predicate OnlyRuns(t: Table, u: Table) {
    && |t.procs| == |t.pcs| == |u.procs| == |u.pcs| && u.nextpid == t.nextpid && u.returned == t.returned
    && forall i | 0 <= i < |t.procs| :: SameLife(t.procs[i], u.procs[i])
  }

  predicate SameLife(p: Proc, q: Proc) {
    q.pid == p.pid && q.parent == p.parent && (if Live(p) then Live(q) else q.state == p.state)
  }

  lemma ZombiesStay(t: Table, u: Table, cur: nat)
    requires OnlyRuns(t, u)
    ensures HasZombie(u.procs, cur) == HasZombie(t.procs, cur) && HasChild(u.procs, cur) == HasChild(t.procs, cur)
  {
    forall i | 0 <= i < |t.procs|
      ensures (u.procs[i].state == ZOMBIE <==> t.procs[i].state == ZOMBIE) && u.procs[i].parent == t.procs[i].parent
    {
      assert SameLife(t.procs[i], u.procs[i]);
    }
    if HasZombie(t.procs, cur) {
      var i :| 0 <= i < |t.procs| && t.procs[i].state == ZOMBIE && Child(t.procs[i], cur);
      assert u.procs[i].state == ZOMBIE && Child(u.procs[i], cur);
    }
    if HasChild(t.procs, cur) {
      var i :| 0 <= i < |t.procs| && Child(t.procs[i], cur);
      assert Child(u.procs[i], cur);
    }
  }

  /** Such a step keeps the invariant if each slot's pc and sleeping state stay in order. */
  lemma RunsKeepsInv(t: Table, u: Table)
    requires Inv(t) && OnlyRuns(t, u)
    requires forall i | 0 <= i < |t.procs| ::
      ForkChild(u.pcs[i]) == ForkChild(t.pcs[i]) && (ForkChild(t.pcs[i]).Some? ==> u.pcs[i] == t.pcs[i])
    requires forall i | 0 <= i < |t.procs| && !Live(t.procs[i]) :: u.pcs[i] == t.pcs[i]
    requires forall i | 0 <= i < |t.procs| && u.procs[i].state == SLEEPING :: SleepOk(t, u, i)
    ensures Inv(u)
  {
    forall i | 0 <= i < |u.procs| ensures SlotOk(u, i) {
      assert SlotOk(t, i) && SameLife(t.procs[i], u.procs[i]);
      ZombiesStay(t, u, i);
      if (Live(t.procs[i]) || t.procs[i].state == ZOMBIE) && i != 0 {
        var q := t.procs[i].parent.value;
        assert Parented(t, i) && SameLife(t.procs[q], u.procs[q]);
      }
      if t.procs[i].state == EMBRYO && t.procs[i].parent.Some? {
        assert u.pcs[t.procs[i].parent.value] == Forked(i);
      }
    }
    forall f | 0 <= f < |u.procs| ensures PcOk(u, f) {
      assert PcOk(t, f);
      if ForkChild(t.pcs[f]).Some? {
        var np := ForkChild(t.pcs[f]).value;
        assert SameLife(t.procs[np], u.procs[np]) && SameLife(t.procs[f], u.procs[f]);
      }
    }
    forall i, j | 0 <= i < j < |u.procs| && u.procs[i].state != UNUSED && u.procs[j].state != UNUSED
      ensures u.procs[i].pid != u.procs[j].pid
    {
      assert SameLife(t.procs[i], u.procs[i]) && SameLife(t.procs[j], u.procs[j]);
    }
  }

  /** A process asleep after the step slept the same way before, sleeps on some other
      address, or found no zombie in wait. */
  predicate SleepOk(t: Table, u: Table, i: nat)
    requires |t.pcs| == |t.procs| == |u.procs| == |u.pcs| && i < |t.procs|
  {
    || (t.procs[i].state == SLEEPING && u.procs[i].chan == t.procs[i].chan && u.pcs[i] == t.pcs[i])
    || u.procs[i].chan.OfOther?
    || (u.procs[i].chan == OfProc(i) && u.pcs[i] == InWait && !HasZombie(t.procs, i))
  }

  lemma QuietStep(t: Table, s: Step)
    requires Inv(t) && Enabled(t, s)
    requires s.Dispatch? || s.Yield? || s.NoChildren? || s.WaitSleep? || s.SleepOn? || s.Awake? || s.Wakeup? || s.Kill?
    ensures Inv(Do(t, s))
  {
    var u := Do(t, s);
    assert OnlyRuns(t, u);
    RunsKeepsInv(t, u);
  }

  // ----- fork -----

  lemma AllocSlot(t: Table, cur: nat, np: nat, i: nat)
    requires Inv(t) && Enabled(t, Alloc(cur, np)) && i < |t.procs|
    ensures var u := Do(t, Alloc(cur, np)); |u.pcs| == |u.procs| == |t.procs| && SlotOk(u, i)
  {
    var u := Do(t, Alloc(cur, np));
    assert SlotOk(t, np) && SlotOk(t, cur) && SlotOk(t, 0) && SlotOk(t, i);
    SameZombies(t.procs, u.procs, np, i);
    if (Live(t.procs[i]) || t.procs[i].state == ZOMBIE) && i != 0 {
      assert Parented(t, i);
    }
  }

  lemma AllocKeepsInv(t: Table, cur: nat, np: nat)
    requires Inv(t) && Enabled(t, Alloc(cur, np))
    ensures Inv(Do(t, Alloc(cur, np)))
  {
    var u := Do(t, Alloc(cur, np));
    assert SlotOk(t, np) && SlotOk(t, cur) && SlotOk(t, 0);
    forall i | 0 <= i < |u.procs| ensures SlotOk(u, i) {
      AllocSlot(t, cur, np, i);
    }
    forall f | 0 <= f < |u.procs| ensures PcOk(u, f) {
      assert PcOk(t, f) && SlotOk(t, f);
    }
    forall f, g | 0 <= f < g < |u.procs| && ForkChild(u.pcs[f]).Some?
      ensures ForkChild(u.pcs[f]) != ForkChild(u.pcs[g])
    {
      assert PcOk(t, f) && PcOk(t, g);
    }
    forall i, j | 0 <= i < j < |u.procs| && u.procs[i].state != UNUSED && u.procs[j].state != UNUSED
      ensures u.procs[i].pid != u.procs[j].pid
    {
      assert SlotOk(t, i) && SlotOk(t, j);
    }
  }

  /** Changing one entry that is no zombie before or after leaves everyone's zombies. */
  lemma SameZombies(ps: seq<Proc>, qs: seq<Proc>, k: nat, cur: nat)
    requires |ps| == |qs| && k < |ps| && ps[k].state != ZOMBIE && qs[k].state != ZOMBIE
    requires forall i | 0 <= i < |ps| && i != k :: qs[i] == ps[i]
    ensures HasZombie(qs, cur) == HasZombie(ps, cur)
  {
    if HasZombie(ps, cur) {
      var i :| 0 <= i < |ps| && ps[i].state == ZOMBIE && Child(ps[i], cur);
      assert qs[i] == ps[i];
    }
  }

  lemma ForkFailsKeepsInv(t: Table, cur: nat)
    requires Inv(t) && Enabled(t, ForkFails(cur))
    ensures Inv(Do(t, ForkFails(cur)))
  {
    var u, np := Do(t, ForkFails(cur)), t.pcs[cur].np;
    assert PcOk(t, cur) && SlotOk(t, cur);
    forall i | 0 <= i < |u.procs| ensures SlotOk(u, i) {
      assert SlotOk(t, i);
      SameZombies(t.procs, u.procs, np, i);
      if (Live(t.procs[i]) || t.procs[i].state == ZOMBIE) && i != 0 {
        assert Parented(t, i);
      }
    }
    forall f | 0 <= f < |u.procs| ensures PcOk(u, f) {
      assert PcOk(t, f) && (f != cur ==> ForkChild(t.pcs[f]) != Some(np));
    }
  }

  lemma ForkLinksKeepsInv(t: Table, cur: nat)
    requires Inv(t) && Enabled(t, ForkLinks(cur))
    ensures Inv(Do(t, ForkLinks(cur)))
  {
    var u, np := Do(t, ForkLinks(cur)), t.pcs[cur].np;
    assert PcOk(t, cur) && SlotOk(t, cur);
    forall i | 0 <= i < |u.procs| ensures SlotOk(u, i) {
      assert SlotOk(t, i);
      SameZombies(t.procs, u.procs, np, i);
      if (Live(t.procs[i]) || t.procs[i].state == ZOMBIE) && i != 0 {
        assert Parented(t, i);
      }
    }
    forall f | 0 <= f < |u.procs| ensures PcOk(u, f) {
      assert PcOk(t, f) && (f != cur ==> ForkChild(t.pcs[f]) != Some(np));
    }
  }

  lemma ForkDoneKeepsInv(t: Table, cur: nat)
    requires Inv(t) && Enabled(t, ForkDone(cur))
    ensures Inv(Do(t, ForkDone(cur)))
  {
    var u, np := Do(t, ForkDone(cur)), t.pcs[cur].np;
    assert PcOk(t, cur) && SlotOk(t, cur) && SlotOk(t, np);
    forall i | 0 <= i < |u.procs| ensures SlotOk(u, i) {
      assert SlotOk(t, i);
      SameZombies(t.procs, u.procs, np, i);
      if (Live(t.procs[i]) || t.procs[i].state == ZOMBIE) && i != 0 {
        assert Parented(t, i);
      }
    }
    forall f | 0 <= f < |u.procs| ensures PcOk(u, f) {
      assert PcOk(t, f) && (f != cur ==> ForkChild(t.pcs[f]) != Some(np));
    }
  }

  // ----- exit and wait -----

  lemma ReapKeepsInv(t: Table, cur: nat, p: nat)
    requires Inv(t) && Enabled(t, Reap(cur, p))
    ensures Inv(Do(t, Reap(cur, p))) && t.procs[p].pid !in t.returned
  {
    var u := Do(t, Reap(cur, p));
    assert SlotOk(t, p) && SlotOk(t, cur);
    forall i | 0 <= i < |u.procs| ensures SlotOk(u, i) {
      assert SlotOk(t, i);
      FewerZombies(t.procs, u.procs, i);
      if (Live(t.procs[i]) || t.procs[i].state == ZOMBIE) && i != 0 {
        assert Parented(t, i);
      }
    }
    forall f | 0 <= f < |u.procs| ensures PcOk(u, f) {
      assert PcOk(t, f);
    }
  }

  lemma FewerZombies(ps: seq<Proc>, qs: seq<Proc>, cur: nat)
    requires |ps| == |qs|
    requires forall i | 0 <= i < |ps| && qs[i].state == ZOMBIE :: ps[i].state == ZOMBIE && ps[i].parent == qs[i].parent
    ensures HasZombie(qs, cur) ==> HasZombie(ps, cur)
  {
  }

  /** What exit leaves of entry i. */
  lemma ExitedAt(ps: seq<Proc>, cur: nat, i: nat)
    requires cur < |ps| && i < |ps| && ps[cur].parent.Some?
    ensures var q := Exited(ps, cur)[i];
      && q.pid == ps[i].pid && q.parent == (if Child(ps[i], cur) then Some(0) else ps[i].parent)
      && (i != cur ==> SameState(ps[i], q)) && (i == cur ==> q.state == ZOMBIE)
      && (i != cur && q.state == SLEEPING ==>
           q.chan == ps[i].chan && q.chan != OfProc(ps[cur].parent.value) &&
           (HasZombie(ps, cur) ==> q.chan != OfProc(0)))
  {
    var woken := Woken(ps, OfProc(ps[cur].parent.value));
    if HasZombie(ps, cur) {
      var k :| 0 <= k < |ps| && ps[k].state == ZOMBIE && Child(ps[k], cur);
      assert woken[k] == ps[k];
    }
  }

  predicate SameState(p: Proc, q: Proc) {
    if Live(p) then Live(q) && (q.state == SLEEPING ==> p.state == SLEEPING) else q.state == p.state
  }

  lemma ExitKeepsInv(t: Table, cur: nat)
    requires Inv(t) && Enabled(t, Exit(cur))
    ensures Inv(Do(t, Exit(cur)))
  {
    var u := Do(t, Exit(cur));
    assert SlotOk(t, cur) && SlotOk(t, 0) && Parented(t, cur);
    forall i | 0 <= i < |u.procs| ensures SlotOk(u, i) {
      ExitSlot(t, cur, i);
    }
    forall f | 0 <= f < |u.procs| ensures PcOk(u, f) {
      assert PcOk(t, f) && SlotOk(t, f);
      ExitedAt(t.procs, cur, f);
      if ForkChild(t.pcs[f]).Some? {
        ExitedAt(t.procs, cur, ForkChild(t.pcs[f]).value);
        assert f != cur;
      }
    }
    forall i, j | 0 <= i < j < |u.procs| && u.procs[i].state != UNUSED && u.procs[j].state != UNUSED
      ensures u.procs[i].pid != u.procs[j].pid
    {
      ExitedAt(t.procs, cur, i);
      ExitedAt(t.procs, cur, j);
    }
  }

  lemma ExitSlot(t: Table, cur: nat, i: nat)
    requires Inv(t) && Enabled(t, Exit(cur)) && i < |t.procs|
    ensures |Do(t, Exit(cur)).pcs| == |Do(t, Exit(cur)).procs| == |t.procs| && SlotOk(Do(t, Exit(cur)), i)
  {
    var u := Do(t, Exit(cur));
    assert SlotOk(t, i) && SlotOk(t, cur) && SlotOk(t, 0) && Parented(t, cur);
    ExitedAt(t.procs, cur, i);
    if (Live(t.procs[i]) || t.procs[i].state == ZOMBIE) && i != 0 {
      assert Parented(t, i);
      ExitedAt(t.procs, cur, t.procs[i].parent.value);
      ExitedAt(t.procs, cur, 0);
      InitIsFirst(t, i);
    }
    if u.procs[i].state == SLEEPING && u.procs[i].chan == OfProc(i) {
      NoNewZombie(t, cur, i);
    }
  }

  lemma InitIsFirst(t: Table, i: nat)
    requires Inv(t) && 0 < i < |t.procs| && (Live(t.procs[i]) || t.procs[i].state == ZOMBIE)
    ensures t.procs[0].pid < t.procs[i].pid
    decreases t.procs[i].pid
  {
    assert SlotOk(t, i) && Parented(t, i);
    var q := t.procs[i].parent.value;
    assert SlotOk(t, q);
    if q != 0 {
      InitIsFirst(t, q);
    }
  }

  /** exit wakes whoever gets a zombie child by it and was asleep in wait. */
  lemma NoNewZombie(t: Table, cur: nat, i: nat)
    requires Inv(t) && Enabled(t, Exit(cur)) && i < |t.procs|
    requires Exited(t.procs, cur)[i].state == SLEEPING && Exited(t.procs, cur)[i].chan == OfProc(i)
    ensures !HasZombie(Exited(t.procs, cur), i)
  {
    var qs := Exited(t.procs, cur);
    ExitedAt(t.procs, cur, i);
    assert SlotOk(t, i) && !HasZombie(t.procs, i);
    assert SlotOk(t, cur) && Parented(t, cur);
    forall k | 0 <= k < |qs| && qs[k].state == ZOMBIE ensures !Child(qs[k], i) {
      ExitedAt(t.procs, cur, k);
      if k != cur && Child(t.procs[k], cur) {
        assert t.procs[k].state == ZOMBIE && HasZombie(t.procs, cur);
      } else if k != cur {
        assert t.procs[k].state == ZOMBIE && !Child(t.procs[k], i);
      }
    }
  }

  // ----- whole runs -----

  /** The invariant in the table's own terms. */
  ghost predicate Safe(t: Table) {
    && (forall i | 0 < i < |t.procs| && (Live(t.procs[i]) || t.procs[i].state == ZOMBIE) :: Parented(t, i))
    && forall i | 0 <= i < |t.procs| && t.procs[i].state == SLEEPING && t.procs[i].chan == OfProc(i) ::
         !HasZombie(t.procs, i)
  }

  lemma StepKeepsInv(t: Table, s: Step)
    requires Inv(t) && Enabled(t, s)
    ensures Inv(Do(t, s))
  {
    match s
    case Alloc(cur, np) => AllocKeepsInv(t, cur, np);
    case ForkFails(cur) => ForkFailsKeepsInv(t, cur);
    case ForkLinks(cur) => ForkLinksKeepsInv(t, cur);
    case ForkDone(cur) => ForkDoneKeepsInv(t, cur);
    case Exit(cur) => ExitKeepsInv(t, cur);
    case Reap(cur, p) => ReapKeepsInv(t, cur, p);
    case _ => QuietStep(t, s);
  }

  /** The table when userinit has run: init alone. */
  predicate Boot(t: Table) {
    && |t.pcs| == |t.procs| > 0 && t.nextpid == 2 && t.returned == {}
    && t.procs[0] == Proc(RUNNABLE, 1, None, NoChan, false) && t.pcs[0] == User
    && forall i | 0 < i < |t.procs| :: t.procs[i] == Reaped() && t.pcs[i] == User
  }

  ghost predicate Run(ts: seq<Table>, steps: seq<Step>) {
    && |ts| == |steps| + 1 && Boot(ts[0])
    && forall k | 0 <= k < |steps| :: Enabled(ts[k], steps[k]) && ts[k + 1] == Do(ts[k], steps[k])
  }

  lemma {:induction false} RunKeepsInv(ts: seq<Table>, steps: seq<Step>, k: nat)
    requires Run(ts, steps) && k < |ts|
    ensures Inv(ts[k]) && Safe(ts[k])
  {
    if k == 0 {
      BootInv(ts[0]);
    } else {
      RunKeepsInv(ts, steps, k - 1);
      StepKeepsInv(ts[k - 1], steps[k - 1]);
    }
    InvIsSafe(ts[k]);
  }

  lemma BootInv(t: Table)
    requires Boot(t)
    ensures Inv(t)
  {
    forall i | 0 <= i < |t.procs| ensures SlotOk(t, i) {
    }
  }

  lemma InvIsSafe(t: Table)
    requires Inv(t)
    ensures Safe(t)
  {
    forall i | 0 <= i < |t.procs| ensures (i > 0 && (Live(t.procs[i]) || t.procs[i].state == ZOMBIE) ==> Parented(t, i))
      ensures t.procs[i].state == SLEEPING && t.procs[i].chan == OfProc(i) ==> !HasZombie(t.procs, i)
    {
      assert SlotOk(t, i);
    }
  }

  /** pids wait has returned stay returned. */
  lemma {:induction false} ReturnedGrows(ts: seq<Table>, steps: seq<Step>, j: nat, k: nat)
    requires Run(ts, steps) && j <= k < |ts|
    ensures ts[j].returned <= ts[k].returned
    decreases k - j
  {
    if j < k {
      ReturnedGrows(ts, steps, j, k - 1);
      var s := steps[k - 1];
      assert ts[k] == Do(ts[k - 1], s);
    }
  }

  /** Each exited pid is returned by at most one wait: of two different waits that return, the pids differ. */
  lemma ReturnedOnce(ts: seq<Table>, steps: seq<Step>, j: nat, k: nat)
    requires Run(ts, steps) && j < k < |steps| && steps[j].Reap? && steps[k].Reap?
    ensures ts[j].procs[steps[j].p].pid != ts[k].procs[steps[k].p].pid
    ensures ts[j].procs[steps[j].p].state == ZOMBIE
  {
    RunKeepsInv(ts, steps, k);
    ReapKeepsInv(ts[k], steps[k].cur, steps[k].p);
    ReturnedGrows(ts, steps, j + 1, k);
    assert ts[j + 1] == Do(ts[j], steps[j]);
  }

  /** The parent relation has no cycle: going up strictly lowers the pid until init. */
  lemma {:induction false} AncestorIsInit(t: Table, i: nat) returns (up: seq<nat>)
    requires Inv(t) && i < |t.procs| && (Live(t.procs[i]) || t.procs[i].state == ZOMBIE)
    ensures |up| > 0 && up[0] == i && up[|up| - 1] == 0
    ensures forall k | 0 <= k < |up| :: up[k] < |t.procs|
    ensures forall k | 0 < k < |up| ::
      t.procs[up[k - 1]].parent == Some(up[k]) && Live(t.procs[up[k]]) && t.procs[up[k]].pid < t.procs[up[k - 1]].pid
    decreases t.procs[i].pid
  {
    assert SlotOk(t, i);
    if i == 0 {
      up := [0];
    } else {
      assert Parented(t, i);
      var q := t.procs[i].parent.value;
      assert SlotOk(t, q);
      var rest := AncestorIsInit(t, q);
      up := [i] + rest;
    }
  }
}
