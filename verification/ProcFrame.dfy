/** What the steps of the process table leave alone: who is woken, and how a process comes
    to be marked killed. */
module ProcFrame {
  import opened Blocks
  import opened Proc

  /** The step that empties slot i. */
  predicate Empties(s: Step, i: nat) {
    s.Reap? && s.p == i
  }

  /** One step and one slot: the pid is given once and taken once, only kill marks and only
      wait's emptying unmarks, and a parent is set by fork and replaced by exit alone. */
  lemma StepFrame(t: Table, s: Step, i: nat)
    requires Enabled(t, s) && i < |t.procs|
    ensures var p, u := t.procs[i], Do(t, s);
      && |u.procs| == |t.procs| == |u.pcs|
      && u.procs[i].pid == (if s.Alloc? && s.np == i then t.nextpid else if Empties(s, i) then 0 else p.pid)
      && u.procs[i].killed == (s == Kill(i) || (p.killed && !Empties(s, i)))
      && (u.procs[i].parent != p.parent ==>
           || (s.ForkLinks? && t.pcs[s.cur] == Forking(i) && u.procs[i].parent == Some(s.cur))
           || (s.Exit? && p.parent == Some(s.cur) && u.procs[i].parent == Some(0))
           || Empties(s, i))
      && (s.Alloc? && s.np == i ==> p.state == UNUSED) && (Empties(s, i) ==> u.procs[i].state == UNUSED)
  {
  }

  /** The step wakes a process that sleeps on the channel. */
  predicate Wakes(t: Table, s: Step, c: Chan) {
    match s
    case Wakeup(a) => c == OfOther(a)
    case Exit(cur) => cur < |t.procs| && t.procs[cur].parent.Some? && WokenByExit(t.procs, cur, c)
    case _ => false
  }

  /** A sleeper becomes runnable by a kill of it or a wakeup on its channel, and by nothing
      else; until it runs it keeps its channel. */
  lemma SleeperWakes(t: Table, s: Step, i: nat)
    requires Inv(t) && Enabled(t, s) && i < |t.procs| && t.procs[i].state == SLEEPING
    ensures var u := Do(t, s);
      && |u.procs| == |t.procs| && u.procs[i].chan == t.procs[i].chan
      && u.procs[i].state == if s == Kill(i) || Wakes(t, s, t.procs[i].chan) then RUNNABLE else SLEEPING
  {
    if s.ForkLinks? || s.ForkDone? || s.ForkFails? {
      assert PcOk(t, s.cur);
    }
    if s.Exit? {
      SameZombiesWoken(t.procs, OfProc(t.procs[s.cur].parent.value), s.cur);
    }
  }

  /** The state diagram: a slot changes state only by these steps, and to these states. */
  predicate Moves(t: Table, s: Step, i: nat, q: RunState)
    requires |t.pcs| == |t.procs| && i < |t.procs|
  {
    match t.procs[i].state
    case UNUSED => s.Alloc? && s.np == i && q == EMBRYO
    case EMBRYO =>
      || (s.ForkFails? && s.cur < |t.pcs| && t.pcs[s.cur] == Forking(i) && q == UNUSED)
      || (s.ForkDone? && s.cur < |t.pcs| && t.pcs[s.cur] == Forked(i) && q == RUNNABLE)
    case RUNNABLE => s == Dispatch(i) && q == RUNNING
    case RUNNING =>
      || (s == Yield(i) && q == RUNNABLE) || (s == Exit(i) && q == ZOMBIE)
      || ((s == WaitSleep(i) || (s.SleepOn? && s.cur == i)) && q == SLEEPING)
    case SLEEPING => (s == Kill(i) || Wakes(t, s, t.procs[i].chan)) && q == RUNNABLE
    case ZOMBIE => Empties(s, i) && t.procs[i].parent == Some(s.cur) && q == UNUSED
  }

  lemma StateDiagram(t: Table, s: Step, i: nat)
    requires Inv(t) && Enabled(t, s) && i < |t.procs|
    ensures var u := Do(t, s);
      |u.procs| == |t.procs| && (u.procs[i].state != t.procs[i].state ==> Moves(t, s, i, u.procs[i].state))
  {
    if t.procs[i].state == SLEEPING {
      SleeperWakes(t, s, i);
    } else if s.ForkLinks? || s.ForkDone? || s.ForkFails? {
      assert PcOk(t, s.cur);
    }
  }

  // ----- whole runs -----

  /** Slot i was marked in step j, and not emptied from then to state k. */
  ghost predicate MarkedAt(steps: seq<Step>, i: nat, j: nat, k: nat) {
    j < k <= |steps| && steps[j] == Kill(i) && forall m | j < m < k :: !Empties(steps[m], i)
  }

  lemma {:induction false} SameSlots(ts: seq<Table>, steps: seq<Step>, k: nat)
    requires Run(ts, steps) && k < |ts|
    ensures |ts[k].procs| == |ts[0].procs| == |ts[k].pcs|
  {
    if k > 0 {
      SameSlots(ts, steps, k - 1);
      if |ts[0].procs| > 0 {
        StepFrame(ts[k - 1], steps[k - 1], 0);
      }
      assert ts[k - 1 + 1] == Do(ts[k - 1], steps[k - 1]);
    }
  }

  /** A slot is marked exactly when a kill has marked it since it was last emptied, in use or not. */
  lemma {:induction false} MarkedExactly(ts: seq<Table>, steps: seq<Step>, k: nat, i: nat)
    requires Run(ts, steps) && k < |ts| && i < |ts[0].procs|
    ensures i < |ts[k].procs|
    ensures ts[k].procs[i].killed <==> exists j :: MarkedAt(steps, i, j, k)
  {
    SameSlots(ts, steps, k);
    if k > 0 {
      MarkedExactly(ts, steps, k - 1, i);
      StepFrame(ts[k - 1], steps[k - 1], i);
      assert ts[k - 1 + 1] == Do(ts[k - 1], steps[k - 1]);
      MarkedNext(steps, i, k - 1, k);
    }
  }

  lemma MarkedNext(steps: seq<Step>, i: nat, k: nat, next: nat)
    requires k < |steps| && next == k + 1
    ensures (exists j :: MarkedAt(steps, i, j, next)) <==>
      steps[k] == Kill(i) || (!Empties(steps[k], i) && exists j :: MarkedAt(steps, i, j, k))
  {
    if steps[k] == Kill(i) {
      assert MarkedAt(steps, i, k, next);
    } else if exists j :: MarkedAt(steps, i, j, next) {
      var j :| MarkedAt(steps, i, j, next);
      assert MarkedAt(steps, i, j, k);
    }
    if !Empties(steps[k], i) && exists j :: MarkedAt(steps, i, j, k) {
      var j :| MarkedAt(steps, i, j, k);
      assert MarkedAt(steps, i, j, next);
    }
  }

  /** Slot i was taken in step a and is in use up to state k. */
  ghost predicate Lives(ts: seq<Table>, steps: seq<Step>, a: nat, k: nat, i: nat)
    requires |ts| == |steps| + 1
  {
    && a < k < |ts| && steps[a].Alloc? && steps[a].np == i
    && forall m | a < m <= k :: i < |ts[m].procs| && ts[m].procs[i].state != UNUSED
  }

  lemma SlotsAt(ts: seq<Table>, steps: seq<Step>, a: nat, k: nat, i: nat)
    requires Run(ts, steps) && Lives(ts, steps, a, k, i)
    ensures i < |ts[a].procs| && i < |ts[k - 1].procs|
    ensures Enabled(ts[k - 1], steps[k - 1]) && ts[k] == Do(ts[k - 1], steps[k - 1])
  {
    SameSlots(ts, steps, a);
    SameSlots(ts, steps, k);
    SameSlots(ts, steps, k - 1);
    assert ts[k - 1 + 1] == Do(ts[k - 1], steps[k - 1]);
  }

  /** A kill has named the pid, which slot i had then, between the two states. */
  ghost predicate Named(ts: seq<Table>, steps: seq<Step>, a: nat, k: nat, i: nat, pid: int)
    requires |ts| == |steps| + 1 && k < |ts|
  {
    exists j :: a < j < k && steps[j] == Kill(i) && i < |ts[j].procs| && ts[j].procs[i].pid == pid
  }

  /** A process keeps the pid it was given, and is marked exactly when a kill has named that
      pid since, or when its slot was marked before it was taken. */
  lemma {:induction false} MarkedSinceTaken(ts: seq<Table>, steps: seq<Step>, a: nat, k: nat, i: nat)
    requires Run(ts, steps) && Lives(ts, steps, a, k, i)
    ensures i < |ts[a].procs| && ts[k].procs[i].pid == ts[a].nextpid
    ensures ts[k].procs[i].killed <==> ts[a].procs[i].killed || Named(ts, steps, a, k, i, ts[a].nextpid)
    decreases k
  {
    hide Do, Enabled;
    var last := k - 1;
    SlotsAt(ts, steps, a, k, i);
    StepFrame(ts[last], steps[last], i);
    if a < last {
      assert Lives(ts, steps, a, last, i);
      MarkedSinceTaken(ts, steps, a, last, i);
    }
  }

  /** So a process that nobody has named can be marked. The input: kill(0) before the
      first fork marks the free slot, and the child is born marked. */
  lemma BornMarked() returns (ts: seq<Table>, steps: seq<Step>)
    ensures Run(ts, steps) && |ts| == 6
    ensures steps[0] == Kill(1) && ts[0].procs[1].pid == 0 && ts[0].procs[0].pid != 0
    ensures Lives(ts, steps, 2, 5, 1) && ts[5].procs[1].state == RUNNABLE && ts[5].procs[1].killed
    ensures forall j | 2 < j < 5 :: !steps[j].Kill?
  {
    var init, free := Proc(RUNNABLE, 1, None, NoChan, false), Reaped().(killed := true);
    var on, child := init.(state := RUNNING), free.(pid := 2);
    ts := [
      Table([init, Reaped()], [User, User], 2, {}),
      Table([init, free], [User, User], 2, {}),
      Table([on, free], [User, User], 2, {}),
      Table([on, child.(state := EMBRYO)], [Forking(1), User], 3, {}),
      Table([on, child.(state := EMBRYO, parent := Some(0))], [Forked(1), User], 3, {}),
      Table([on, child.(state := RUNNABLE, parent := Some(0))], [User, User], 3, {})
    ];
    steps := [Kill(1), Dispatch(0), Alloc(0, 1), ForkLinks(0), ForkDone(0)];
    forall k | 0 <= k < |steps| ensures Enabled(ts[k], steps[k]) && ts[k + 1] == Do(ts[k], steps[k]) {
    }
  }
}
