/** What happens when the log has no more blocks than the reservation: a run of three
    processes in which the last pass of write_log overwrites the block behind the log
    before anything is committed, and on which disks there is no such run. */
module LogOverrun {
  import opened Blocks
  import opened LogSpec
  import opened Params
  import opened LogMachine
  import opened Sums

  /** Crash atomicity for a geometry: in every run, at every moment. */
  ghost predicate CrashAtomic(g: Geometry)
    requires g.Ok()
  {
    forall states: seq<State>, steps: seq<Step>, k: nat ::
      Run(g, states, steps) && k < |states| ==> AtomicAt(g, states, steps, k)
  }

  /** There are as many home blocks as the log has blocks, and one lies behind the log. */
  predicate Exposed(g: Geometry) {
    g.start + g.size < g.disksize && 2 * g.size <= g.disksize
  }

  /** Whatever the layout: every run is crash atomic except when a log of 2 to LOGSIZE blocks
      has a home block behind it and as many home blocks in all. */
  lemma CrashAtomicExactly(g: Geometry)
    requires g.Ok()
    ensures CrashAtomic(g) <==> !(2 <= g.size <= LOGSIZE && Exposed(g))
  {
    if 2 <= g.size <= LOGSIZE && Exposed(g) {
      var states, steps := OverrunRun(g);
      assert !AtomicAt(g, states, steps, |steps|);
    } else {
      forall states: seq<State>, steps: seq<Step>, k: nat | Run(g, states, steps) && k < |states|
        ensures AtomicAt(g, states, steps, k)
      {
        if Roomy(g) {
          CrashAtomicity(g, states, steps, k);
        } else {
          StuckIsAtomic(g, states, steps, k);
        }
      }
    }
  }

  // ----- a log at the end of the disk -----

  /** The log has more entries than places and no block behind it: the commit cannot get to
      its header write, and the disk stays as promised. */
  ghost predicate Stuck(g: Geometry, s: State)
    requires g.Ok()
  {
    match s
    case State(disk, _, lh, _, phase, stable) =>
      && g.start + g.size == g.disksize && |lh| >= g.size
      && (phase.Running? || (phase.Logging? && phase.tail < g.size))
      && |disk| == g.disksize && HeadCount(g, disk) == 0 && SameHome(g, disk, stable)
  }

  ghost predicate InvOrStuck(g: Geometry, s: State)
    requires g.Ok()
  {
    Inv(g, s) || Stuck(g, s)
  }

  lemma OverrunIsStuck(g: Geometry, s: State, p: Pid)
    requires Inv(g, s) && Enabled(g, s, Append(p)) && g.start + g.size == g.disksize && 2 <= g.size <= LOGSIZE
    ensures InvOrStuck(g, Apply(g, s, Append(p)))
  {
    var t := Apply(g, s, Append(p));
    if s.ops[p].b in s.lh || |s.lh| < g.Capacity() {
      AppendedConsistent(g, s, p, s.ops[p].b, t);
      StepKeepsBudget(g, s, Append(p));
    } else {
      forall b | g.Home(b) ensures t.disk[b] == t.stable[b] {
        LoggedBlockStaysOnDisk(g, s, b);
      }
    }
  }

  lemma StuckStays(g: Geometry, s: State, step: Step)
    requires g.Ok() && Stuck(g, s) && Typed(g, s) && Enabled(g, s, step)
    ensures InvOrStuck(g, Apply(g, s, step))
  {
    var t := Apply(g, s, step);
    if step.Crash? {
      SumZero(Budget, t.ops);
    } else if step.WriteLogBlock? {
      assert t.disk[g.start] == s.disk[g.start];
    }
  }

  lemma StuckStep(g: Geometry, s: State, step: Step)
    requires g.Ok() && InvOrStuck(g, s) && Typed(g, s) && Enabled(g, s, step)
    requires g.start + g.size == g.disksize && 2 <= g.size <= LOGSIZE
    ensures InvOrStuck(g, Apply(g, s, step))
    ensures !step.WriteHead? ==> Apply(g, s, step).stable == s.stable
    ensures step.WriteHead? ==> forall b | g.Home(b) :: Apply(g, s, step).stable[b] == Logical(s, b)
  {
    if !Inv(g, s) {
      StuckStays(g, s, step);
    } else {
      PromiseMovesAtWriteHead(g, s, step);
      if step.Append? {
        OverrunIsStuck(g, s, step.p);
      } else {
        OtherStepKeepsInv(g, s, step);
      }
    }
  }

  lemma {:induction false} StuckRun(g: Geometry, states: seq<State>, steps: seq<Step>, k: nat)
    requires Run(g, states, steps) && k < |states| && g.start + g.size == g.disksize && 2 <= g.size <= LOGSIZE
    ensures InvOrStuck(g, states[k]) && Sized(g, states, steps) && |states[k].stable| == g.disksize
    ensures forall b | g.Home(b) :: states[k].stable[b] == Committed(g, states, steps, k, b)
  {
    RunIsSized(g, states, steps);
    if k == 0 {
      InitInv(g, states[0]);
    } else {
      StuckRun(g, states, steps, k - 1);
      StuckStep(g, states[k - 1], steps[k - 1]);
    }
  }

  lemma StuckIsAtomic(g: Geometry, states: seq<State>, steps: seq<Step>, k: nat)
    requires Run(g, states, steps) && k < |states| && g.start + g.size == g.disksize && 2 <= g.size <= LOGSIZE
    ensures AtomicAt(g, states, steps, k)
  {
    StuckRun(g, states, steps, k);
    if Inv(g, states[k]) {
      RecoversStable(g, states[k]);
    } else {
      RecoveredEmpty(g, states[k].disk);
    }
  }

  // ----- runs before the first commit -----

  ghost predicate Traces(g: Geometry, states: seq<State>, steps: seq<Step>, d: Disk, s: State) {
    && Run(g, states, steps) && states[0].disk == d && states[|steps|] == s
    && LastCommit(steps, |steps|) == 0
  }

  /** s comes up from disk d without a header write. */
  ghost predicate Reached(g: Geometry, d: Disk, s: State) {
    exists states: seq<State>, steps: seq<Step> :: Traces(g, states, steps, d, s)
  }

  /** A step other than a header write can be taken. */
  ghost predicate May(g: Geometry, s: State, step: Step) {
    match s
    case State(_, _, _, _, _, _) => g.Ok() && Typed(g, s) && Enabled(g, s, step) && !step.WriteHead?
  }

  lemma Extend(g: Geometry, d: Disk, s: State, step: Step)
    requires Reached(g, d, s) && May(g, s, step)
    ensures Reached(g, d, Apply(g, s, step))
  {
    var states: seq<State>, steps: seq<Step> :| Traces(g, states, steps, d, s);
    var t := Apply(g, s, step);
    NoCommitYet(steps, step);
    assert Traces(g, states + [t], steps + [step], d, t);
  }

  lemma NoCommitYet(steps: seq<Step>, step: Step)
    requires LastCommit(steps, |steps|) == 0 && !step.WriteHead?
    ensures LastCommit(steps + [step], |steps| + 1) == 0
  {
    assert forall i | 0 <= i < |steps| :: (steps + [step])[i] == steps[i];
  }

  lemma Starts(g: Geometry, d: Disk, s: State)
    requires Init(g, s) && s.disk == d
    ensures Reached(g, d, s)
  {
    assert Traces(g, [s], [], d, s);
  }

  // ----- one log_write -----

  lemma EntryStep(g: Geometry, d: Disk, s: State, b: nat, e: Entry, step: Step, f: Entry)
    requires Reached(g, d, Put(s, b, e)) && May(g, Put(s, b, e), step)
    requires Apply(g, Put(s, b, e), step) == Put(Put(s, b, e), b, f)
    ensures Reached(g, d, Put(s, b, f))
  {
    Extend(g, d, Put(s, b, e), step);
    assert Put(Put(s, b, e), b, f) == Put(s, b, f);
  }

  /** p reads block b and changes it to data. */
  lemma Change(g: Geometry, d: Disk, s: State, p: Pid, b: nat, data: Block)
    requires g.Ok() && Reached(g, d, s) && Typed(g, s) && s.phase.Running? && g.Home(b) && b !in s.cache
    requires p < |s.ops| && s.ops[p].In?
    ensures Reached(g, d, Put(s, b, Entry(data, true, false, 1, true, Some(p))))
  {
    Extend(g, d, s, Ref(b));
    ChangeOpen(g, d, s, p, b, data);
  }

  lemma ChangeOpen(g: Geometry, d: Disk, s: State, p: Pid, b: nat, data: Block)
    requires g.Ok() && Typed(g, s) && s.phase.Running? && b < g.disksize && p < |s.ops| && s.ops[p].In?
    requires Reached(g, d, Put(s, b, Entry(ZeroBlock(), false, false, 1, false, None)))
    ensures Reached(g, d, Put(s, b, Entry(data, true, false, 1, true, Some(p))))
  {
    LockAndFill(g, d, s, b);
    EntryStep(g, d, s, b, Entry(s.disk[b], true, false, 1, true, None), Modify(p, b, data),
      Entry(data, true, false, 1, true, Some(p)));
  }

  lemma LockAndFill(g: Geometry, d: Disk, s: State, b: nat)
    requires g.Ok() && Typed(g, s) && s.phase.Running? && b < g.disksize
    requires Reached(g, d, Put(s, b, Entry(ZeroBlock(), false, false, 1, false, None)))
    ensures Reached(g, d, Put(s, b, Entry(s.disk[b], true, false, 1, true, None)))
  {
    var e := Entry(ZeroBlock(), false, false, 1, false, None);
    EntryStep(g, d, s, b, e, Lock(b), e.(locked := true));
    EntryStep(g, d, s, b, e.(locked := true), Fill(b), Entry(s.disk[b], true, false, 1, true, None));
  }

  /** p changes block b and passes log_write's test. */
  lemma Open(g: Geometry, d: Disk, s: State, p: Pid, left: nat, b: nat, data: Block) returns (t: State)
    requires g.Ok() && Reached(g, d, s) && Typed(g, s) && s.phase.Running? && g.Home(b) && b !in s.cache
    requires p < |s.ops| && s.ops[p] == In(left) && left > 0 && |s.lh| < g.Capacity()
    ensures Reached(g, d, t) && Typed(g, t)
    ensures t == Put(s, b, Entry(data, true, false, 1, true, Some(p))).(ops := s.ops[p := Adding(left, b)])
  {
    Change(g, d, s, p, b, data);
    var u := Put(s, b, Entry(data, true, false, 1, true, Some(p)));
    Extend(g, d, u, Check(p, b));
    t := Apply(g, u, Check(p, b));
    assert t.cache == u.cache;
  }

  /** p appends block b, past the test, and lets the buffer go. */
  lemma Close(g: Geometry, d: Disk, s: State, p: Pid, left: nat, b: nat, data: Block) returns (t: State)
    requires g.Ok() && Reached(g, d, s) && Typed(g, s) && s.phase.Running? && g.Home(b) && b !in s.lh
    requires p < |s.ops| && s.ops[p] == Adding(left, b) && left > 0 && |s.lh| < LOGSIZE
    requires b in s.cache && s.cache[b] == Entry(data, true, false, 1, true, Some(p))
    ensures Reached(g, d, t) && Typed(g, t)
    ensures t == Put(s, b, Entry(data, true, true, 0, false, None)).(
        ops := s.ops[p := In(left - 1)], lh := s.lh + [b])
  {
    Extend(g, d, s, Append(p));
    var u := s.(ops := s.ops[p := In(left - 1)], lh := s.lh + [b]);
    LetGo(g, d, u, b, data);
    t := Put(u, b, Entry(data, true, true, 0, false, None));
  }

  lemma LetGo(g: Geometry, d: Disk, s: State, b: nat, data: Block)
    requires g.Ok() && Typed(g, s) && b < g.disksize
    requires Reached(g, d, Put(s, b, Entry(data, true, true, 1, true, None)))
    ensures Reached(g, d, Put(s, b, Entry(data, true, true, 0, false, None)))
  {
    EntryStep(g, d, s, b, Entry(data, true, true, 1, true, None), Unlock(b), Entry(data, true, true, 1, false, None));
    Leave(g, d, s, b, data);
  }

  lemma Leave(g: Geometry, d: Disk, s: State, b: nat, data: Block)
    requires g.Ok() && Typed(g, s) && b < g.disksize
    requires Reached(g, d, Put(s, b, Entry(data, true, true, 1, false, None)))
    ensures Reached(g, d, Put(s, b, Entry(data, true, true, 0, false, None)))
  {
    var e := Entry(data, true, true, 1, false, None);
    var t := Put(s, b, e);
    assert t.cache[b] == e;
    EntryStep(g, d, s, b, e, Unref(b), e.(refs := 0));
  }

  // ----- three operations fill the log -----

  /** The i-th home block, which the run logs as its i-th. */
  function Slot(g: Geometry, i: nat): nat {
    if i < g.start then i else g.size + i
  }

  lemma SlotIsHome(g: Geometry, i: nat)
    requires g.Ok() && g.size + i < g.disksize
    ensures g.Home(Slot(g, i)) && Rank(g, Slot(g, i)) == i
  {
  }

  function Slots(g: Geometry, j: nat): (lh: seq<nat>)
    ensures |lh| == j && forall i | 0 <= i < j :: lh[i] == Slot(g, i)
  {
    seq(j, i requires 0 <= i < j => Slot(g, i))
  }

  lemma SlotsNext(g: Geometry, j: nat)
    ensures Slots(g, j) + [Slot(g, j)] == Slots(g, j + 1)
  {
  }

  function Clamp(x: int, hi: nat): (r: nat)
    ensures r <= hi
  {
    if x < 0 then 0 else if x > hi then hi else x
  }

  /** The operations after j blocks: ten by process 2, then nine by 0, then nine by 1. */
  function OpsAt(j: nat): seq<Op> {
    [In(10 - Clamp(j - 10, 9)), In(10 - Clamp(j - 19, 9)), In(10 - Clamp(j, 10))]
  }

  /** The first j blocks are logged by the given operations and nobody holds a buffer. */
  ghost predicate Filled(g: Geometry, d: Disk, s: State, j: nat, ops: seq<Op>)
    requires g.Ok()
  {
    && Reached(g, d, s) && s.disk == s.stable == d && s.phase == Running && s.lh == Slots(g, j) && s.ops == ops
    && forall b | b in s.cache :: g.Home(b) && Rank(g, b) < j && s.cache[b].touched == None
  }

  lemma FilledTyped(g: Geometry, d: Disk, s: State, j: nat, ops: seq<Op>)
    requires g.Ok() && |d| == g.disksize && j <= g.size <= LOGSIZE && Exposed(g)
    requires Filled(g, d, s, j, ops)
    ensures Typed(g, s) && forall i | j <= i < g.size ::
      g.Home(Slot(g, i)) && Slot(g, i) !in s.cache && Slot(g, i) !in s.lh
  {
    forall i: nat | i < g.size ensures g.Home(Slot(g, i)) && Rank(g, Slot(g, i)) == i {
      SlotIsHome(g, i);
    }
  }

  lemma LogNext(g: Geometry, d: Disk, s: State, j: nat, ops: seq<Op>, p: Pid, left: nat) returns (t: State)
    requires g.Ok() && |d| == g.disksize && j + 2 <= g.size <= LOGSIZE && Exposed(g)
    requires Filled(g, d, s, j, ops) && p < |ops| && ops[p] == In(left) && left > 0
    ensures Filled(g, d, t, j + 1, ops[p := In(left - 1)])
  {
    FilledTyped(g, d, s, j, ops);
    var b := Slot(g, j);
    var u := Open(g, d, s, p, left, b, d[b]);
    t := Close(g, d, u, p, left, b, d[b]);
    SlotsNext(g, j);
    assert s.ops[p := Adding(left, b)][p := In(left - 1)] == s.ops[p := In(left - 1)];
  }

  lemma Begins(g: Geometry, d: Disk, s: State, p: Pid, running: nat)
    requires g.Ok() && Reached(g, d, s) && Typed(g, s) && s.phase.Running? && p < |s.ops| && s.ops[p].Out?
    requires s.lh == [] && Sum(Active, s.ops) == running <= 2
    ensures Reached(g, d, s.(ops := s.ops[p := In(MAXOPBLOCKS)]))
    ensures Sum(Active, s.ops[p := In(MAXOPBLOCKS)]) == running + 1
  {
    Extend(g, d, s, Begin(p));
    SumUpdate(Active, s.ops, p, In(MAXOPBLOCKS));
  }

  lemma AllIn(ops: seq<Op>)
    requires |ops| == 3 && forall p | 0 <= p < 3 :: ops[p] == In(MAXOPBLOCKS)
    ensures ops == OpsAt(0)
  {
  }

  lemma ThreeBegin(g: Geometry, d: Disk) returns (s: State)
    requires g.Ok() && |d| == g.disksize && HeadCount(g, d) == 0
    ensures Filled(g, d, s, 0, OpsAt(0))
  {
    s := State(d, map[], [], [Out, Out, Out], Running, d);
    Starts(g, d, s);
    SumZero(Active, s.ops);
    Begins(g, d, s, 0, 0);
    s := s.(ops := s.ops[0 := In(MAXOPBLOCKS)]);
    Begins(g, d, s, 1, 1);
    s := s.(ops := s.ops[1 := In(MAXOPBLOCKS)]);
    Begins(g, d, s, 2, 2);
    s := s.(ops := s.ops[2 := In(MAXOPBLOCKS)]);
    AllIn(s.ops);
    assert s.lh == Slots(g, 0);
  }

  lemma OpsNext(j: nat, p: Pid) returns (left: nat)
    requires 0 < j <= 28 && p == if j <= 10 then 2 else if j <= 19 then 0 else 1
    ensures OpsAt(j - 1)[p] == In(left) && left > 0 && OpsAt(j - 1)[p := In(left - 1)] == OpsAt(j)
  {
    left := OpsAt(j - 1)[p].left;
  }

  lemma {:induction false} FillTo(g: Geometry, d: Disk, j: nat) returns (s: State)
    requires g.Ok() && |d| == g.disksize && HeadCount(g, d) == 0
    requires j + 2 <= g.size <= LOGSIZE && Exposed(g)
    ensures Filled(g, d, s, j, OpsAt(j))
  {
    if j == 0 {
      s := ThreeBegin(g, d);
    } else {
      var r := FillTo(g, d, j - 1);
      var p := if j <= 10 then 2 else if j <= 19 then 0 else 1;
      var left := OpsNext(j, p);
      s := LogNext(g, d, r, j - 1, OpsAt(j - 1), p, left);
    }
  }

  // ----- the overrun -----

  /** All blocks of the log are named, one more than there are places for, and the
      last of them is to read as data. */
  ghost predicate Overran(g: Geometry, d: Disk, s: State, data: Block) {
    && Reached(g, d, s) && s.disk == s.stable == d && s.lh == Slots(g, g.size)
    && Typed(g, s) && g.size > 0 && Slot(g, g.size - 1) in s.cache && s.cache[Slot(g, g.size - 1)].valid
    && s.cache[Slot(g, g.size - 1)].data == data
  }

  /** Processes 0 and 1 both pass the test for the last place, then both append. */
  lemma BothPass(g: Geometry, d: Disk, data: Block) returns (s: State)
    requires g.Ok() && |d| == g.disksize && HeadCount(g, d) == 0
    requires 2 <= g.size <= LOGSIZE && Exposed(g)
    ensures Overran(g, d, s, data) && s.phase.Running? && |s.ops| == 3 && forall p | 0 <= p < 3 :: s.ops[p].In?
    ensures forall b | b in s.cache :: s.cache[b].touched == None
  {
    var j := g.size - 2;
    var r := FillTo(g, d, j);
    FilledTyped(g, d, r, j, OpsAt(j));
    s := BothLog(g, d, r, OpsAt(j)[0].left, OpsAt(j)[1].left, Slot(g, j), Slot(g, j + 1), data);
    SlotsNext(g, j);
    SlotsNext(g, j + 1);
  }

  lemma BothLog(g: Geometry, d: Disk, s: State, left0: nat, left1: nat, b: nat, c: nat, data: Block) returns (t: State)
    requires g.Ok() && Reached(g, d, s) && Typed(g, s) && s.phase.Running? && b != c && |d| == g.disksize
    requires g.Home(b) && b !in s.cache && b !in s.lh && g.Home(c) && c !in s.cache && c !in s.lh
    requires |s.ops| > 1 && s.ops[0] == In(left0) && s.ops[1] == In(left1) && left0 > 0 && left1 > 0
    requires |s.lh| < g.Capacity() && |s.lh| + 1 < LOGSIZE
    ensures Reached(g, d, t) && Typed(g, t)
    ensures t == Put(Put(s, b, Entry(d[b], true, true, 0, false, None)), c,
        Entry(data, true, true, 0, false, None)).(
        ops := s.ops[0 := In(left0 - 1)][1 := In(left1 - 1)], lh := s.lh + [b] + [c])
  {
    var u := BothOpen(g, d, s, left0, left1, b, c, data);
    t := BothClose(g, d, u, left0, left1, b, c, d[b], data);
    TwiceMap(s.cache, b, c, u.cache[b], u.cache[c], t.cache[b], t.cache[c]);
    TwiceSeq(s.ops, 0, 1, u.ops[0], u.ops[1], t.ops[0], t.ops[1]);
  }

  lemma TwiceMap<T>(m: map<nat, T>, b: nat, c: nat, x: T, y: T, z: T, w: T)
    requires b != c
    ensures m[b := x][c := y][b := z][c := w] == m[b := z][c := w]
  {
  }

  lemma TwiceSeq<T>(m: seq<T>, b: nat, c: nat, x: T, y: T, z: T, w: T)
    requires b < |m| && c < |m| && b != c
    ensures m[b := x][c := y][b := z][c := w] == m[b := z][c := w]
  {
  }

  lemma BothClose(g: Geometry, d: Disk, s: State, left0: nat, left1: nat, b: nat, c: nat, data0: Block, data1: Block)
    returns (t: State)
    requires g.Ok() && Reached(g, d, s) && Typed(g, s) && s.phase.Running? && b != c
    requires g.Home(b) && g.Home(c) && b !in s.lh && c !in s.lh && |s.lh| + 1 < LOGSIZE
    requires |s.ops| > 1 && s.ops[0] == Adding(left0, b) && s.ops[1] == Adding(left1, c) && left0 > 0 && left1 > 0
    requires b in s.cache && s.cache[b] == Entry(data0, true, false, 1, true, Some(0))
    requires c in s.cache && s.cache[c] == Entry(data1, true, false, 1, true, Some(1))
    ensures Reached(g, d, t) && Typed(g, t)
    ensures t == Put(Put(s, b, Entry(data0, true, true, 0, false, None)), c,
        Entry(data1, true, true, 0, false, None)).(
        ops := s.ops[0 := In(left0 - 1)][1 := In(left1 - 1)], lh := s.lh + [b] + [c])
  {
    var u := Close(g, d, s, 0, left0, b, data0);
    t := Close(g, d, u, 1, left1, c, data1);
  }

  lemma BothOpen(g: Geometry, d: Disk, s: State, left0: nat, left1: nat, b: nat, c: nat, data: Block) returns (t: State)
    requires g.Ok() && Reached(g, d, s) && Typed(g, s) && s.phase.Running? && b != c && |d| == g.disksize
    requires g.Home(b) && b !in s.cache && g.Home(c) && c !in s.cache
    requires |s.ops| > 1 && s.ops[0] == In(left0) && s.ops[1] == In(left1) && left0 > 0 && left1 > 0
    requires |s.lh| < g.Capacity()
    ensures Reached(g, d, t) && Typed(g, t)
    ensures t == Put(Put(s, b, Entry(d[b], true, false, 1, true, Some(0))), c,
        Entry(data, true, false, 1, true, Some(1))).(
        ops := s.ops[0 := Adding(left0, b)][1 := Adding(left1, c)])
  {
    var u := Open(g, d, s, 0, left0, b, d[b]);
    t := Open(g, d, u, 1, left1, c, data);
  }

  lemma OneEnds(g: Geometry, d: Disk, s: State, p: Pid, other: Pid)
    requires g.Ok() && Reached(g, d, s) && Typed(g, s) && s.phase.Running? && p < |s.ops| && s.ops[p].In?
    requires other < |s.ops| && p != other && s.ops[other].In?
    requires forall b | b in s.cache :: s.cache[b].touched == None
    ensures Reached(g, d, s.(ops := s.ops[p := Out]))
  {
    Extend(g, d, s, End(p));
    assert !s.ops[p := Out][other].Out?;
  }

  lemma AllEnd(g: Geometry, d: Disk, s: State, data: Block) returns (t: State)
    requires g.Ok() && Overran(g, d, s, data)
    requires s.phase.Running? && |s.ops| == 3 && forall p | 0 <= p < 3 :: s.ops[p].In?
    requires forall b | b in s.cache :: s.cache[b].touched == None
    ensures Overran(g, d, t, data) && t.phase == Logging(0)
  {
    OneEnds(g, d, s, 0, 1);
    t := s.(ops := s.ops[0 := Out]);
    OneEnds(g, d, t, 1, 2);
    t := t.(ops := t.ops[1 := Out]);
    LastEnds(g, d, t, 2);
    t := t.(ops := t.ops[2 := Out], phase := Logging(0));
  }

  lemma LastEnds(g: Geometry, d: Disk, s: State, p: Pid)
    requires g.Ok() && Reached(g, d, s) && Typed(g, s) && s.phase.Running? && p < |s.ops| && s.ops[p].In? && s.lh != []
    requires forall q | 0 <= q < |s.ops| && q != p :: s.ops[q].Out?
    requires forall b | b in s.cache :: s.cache[b].touched == None
    ensures Reached(g, d, s.(ops := s.ops[p := Out], phase := Logging(0)))
  {
    Extend(g, d, s, End(p));
  }

  /** k passes of write_log are over; last is the last block to be logged. */
  ghost predicate WroteOut(g: Geometry, d: Disk, last: nat, data: Block, k: nat, s: State)
    requires |d| == g.disksize && g.start + g.size < g.disksize
  {
    && Reached(g, d, s) && Typed(g, s) && s.phase == Logging(k) && s.lh == Slots(g, g.size)
    && last in s.cache && s.cache[last].valid && s.cache[last].data == data
    && s.disk[g.start] == d[g.start] && (k == g.size ==> s.disk[g.start + g.size] == data)
  }

  lemma Pass(g: Geometry, d: Disk, last: nat, data: Block, k: nat, s: State) returns (t: State)
    requires g.Ok() && |d| == g.disksize && g.start + g.size < g.disksize && last == Slot(g, g.size - 1)
    requires k < g.size <= LOGSIZE && WroteOut(g, d, last, data, k, s)
    ensures WroteOut(g, d, last, data, k + 1, t)
  {
    Extend(g, d, s, WriteLogBlock);
    t := LogBlockOut(g, s);
    assert k == g.size - 1 || g.start + k + 1 < g.start + g.size;
    assert g.Home(last) by { assert g.Home(s.lh[g.size - 1]); }
    PassWrote(g, s, k, last, t);
    assert k == g.size - 1 ==> s.lh[k] == last;
  }

  lemma PassWrote(g: Geometry, s: State, tail: nat, last: nat, t: State)
    requires g.Ok() && Typed(g, s) && s.phase == Logging(tail) && tail < |s.lh| <= g.size
    requires g.start + g.size < g.disksize && (s.lh[tail] == last || g.start + tail + 1 != last)
    requires last in s.cache && s.cache[last].valid && t == LogBlockOut(g, s)
    ensures Typed(g, t) && last in t.cache && t.cache[last].valid && t.cache[last].data == s.cache[last].data
    ensures t.disk[g.start] == s.disk[g.start]
    ensures t.disk[g.start + tail + 1] == Logical(s, s.lh[tail]) && t.lh == s.lh && t.phase == Logging(tail + 1)
  {
  }

  lemma {:induction false} WriteOut(g: Geometry, d: Disk, last: nat, data: Block, k: nat, s: State) returns (t: State)
    requires g.Ok() && |d| == g.disksize && g.start + g.size < g.disksize && last == Slot(g, g.size - 1)
    requires k <= g.size <= LOGSIZE && WroteOut(g, d, last, data, 0, s)
    ensures WroteOut(g, d, last, data, k, t)
  {
    if k == 0 {
      t := s;
    } else {
      var u := WriteOut(g, d, last, data, k - 1, s);
      t := Pass(g, d, last, data, k - 1, u);
    }
  }

  function BlankDisk(g: Geometry): (d: Disk)
    ensures |d| == g.disksize && forall b | 0 <= b < |d| :: d[b] == ZeroBlock()
  {
    seq(g.disksize, i => ZeroBlock())
  }

  lemma Overwrites(g: Geometry, data: Block) returns (s: State)
    requires g.Ok() && 2 <= g.size <= LOGSIZE && Exposed(g)
    ensures var d := BlankDisk(g);
      Reached(g, d, s) && |s.disk| == g.disksize && s.disk[g.start] == d[g.start] && s.disk[g.start + g.size] == data
  {
    var d := BlankDisk(g);
    ZeroWord(0);
    s := BothPass(g, d, data);
    s := AllEnd(g, d, s, data);
    s := WriteOut(g, d, Slot(g, g.size - 1), data, g.size, s);
  }

  /** The run: at its end nothing is committed, and yet a recovery finds the block
      behind the log changed. */
  lemma OverrunRun(g: Geometry) returns (states: seq<State>, steps: seq<Step>)
    requires g.Ok() && 2 <= g.size <= LOGSIZE && Exposed(g)
    ensures Run(g, states, steps) && LastCommit(steps, |steps|) == 0 && !AtomicAt(g, states, steps, |steps|)
    ensures var b := g.start + g.size;
      && g.Home(b) && HeadOk(g, states[|steps|].disk) && |states[0].disk| == g.disksize
      && Recovered(g, states[|steps|].disk)[b] != states[0].disk[b]
  {
    var data: Block := seq(BSIZE, i => 1);
    var s := Overwrites(g, data);
    ZeroWord(0);
    RecoveredEmpty(g, s.disk);
    states, steps :| Traces(g, states, steps, BlankDisk(g), s);
    NotAtomic(g, states, steps, data);
  }

  lemma NotAtomic(g: Geometry, states: seq<State>, steps: seq<Step>, data: Block)
    requires g.Ok() && |states| == |steps| + 1 && LastCommit(steps, |steps|) == 0 && states[0].disk == BlankDisk(g)
    requires HeadOk(g, states[|steps|].disk) && g.Home(g.start + g.size) && data[0] == 1
    requires Recovered(g, states[|steps|].disk)[g.start + g.size] == data
    ensures !AtomicAt(g, states, steps, |steps|) && data != states[0].disk[g.start + g.size]
  {
    assert ZeroBlock()[0] == 0;
  }
}
