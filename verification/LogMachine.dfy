/** The redo log over the buffer cache as an interleaved machine: any number of
    processes read, modify and log blocks while at most one of them commits, and a
    crash may come between any two steps, recovery's own steps included. One step
    is at most one block transfer. log_write is two steps, because it tests the
    length of the log before it takes the lock. */
module LogMachine {
  import opened Blocks
  import opened LogSpec
  import opened Params
  import opened Sums

  type Pid = nat

  /** Where a process stands: outside an operation, inside one that may add some more
      blocks to the log, or inside log_write past its test but not yet under the lock. */
  datatype Op = Out | In(left: nat) | Adding(left: nat, b: nat)

  /** A cached block. refs counts holders and waiters; touched names the holder that
      has changed the data, or entered log_write, since its last log_write was over. */
  datatype Entry = Entry(data: Block, valid: bool, dirty: bool, refs: nat, locked: bool, touched: Option<Pid>)

  /** Where the commit (log.committing) or the boot-time recovery stands. */
  datatype Phase =
    | Running
    | Logging(tail: nat)
    | Installing(tail: nat)
    | Finishing
    | Recovering(tail: nat)

  /** stable is a history variable: the disk contents the last write_head promised. */
  datatype State = State(
    disk: Disk,
    cache: map<nat, Entry>,
    lh: seq<nat>,
    ops: seq<Op>,
    phase: Phase,
    stable: Disk)

  datatype Step =
    | Begin(p: Pid)
    | End(p: Pid)
    | Ref(b: nat)
    | Lock(b: nat)
    | Fill(b: nat)
    | Modify(p: Pid, b: nat, data: Block)
    | Check(p: Pid, b: nat)
    | Append(p: Pid)
    | Unlock(b: nat)
    | Unref(b: nat)
    | Recycle(b: nat)
    | WriteLogBlock
    | WriteHead
    | InstallBlock
    | EraseHead
    | Finish
    | Crash
    | RecoverBlock
    | RecoverErase

  /** The current contents of a block: the cached data if valid, else the disk. */
  function Logical(s: State, b: nat): Block
    requires b < |s.disk|
  {
    if b in s.cache && s.cache[b].valid then s.cache[b].data else s.disk[b]
  }

  /** A buffer the step's process may use: present, and its sleep-lock held. */
  predicate Held(s: State, b: nat) {
    b in s.cache && s.cache[b].locked
  }

  function Budget(op: Op): int { if op.Out? then 0 else op.left }
  function Active(op: Op): int { if op.Out? then 0 else 1 }

  predicate Inside(s: State, p: Pid) {
    p < |s.ops| && !s.ops[p].Out?
  }

  predicate Quiet(ops: seq<Op>) {
    forall p | 0 <= p < |ops| :: ops[p].Out?
  }

  // ----- the steps -----

  /** p is inside an operation, outside log_write, with the data of b its own to change. */
  predicate Owns(s: State, p: Pid, b: nat) {
    && s.phase.Running? && p < |s.ops| && s.ops[p].In?
    && Held(s, b) && s.cache[b].valid && s.cache[b].touched in {None, Some(p)}
  }

  /** What every step takes for granted: places for the blocks it names. */
  predicate Typed(g: Geometry, s: State) {
    match s
    case State(disk, cache, lh, _, _, stable) =>
      && |disk| == |stable| == g.disksize < 0x8000_0000
      && |lh| <= LOGSIZE && (forall i | 0 <= i < |lh| :: g.Home(lh[i]))
      && forall b | b in cache :: b < g.disksize
  }

  ghost predicate Enabled(g: Geometry, s: State, step: Step)
    requires g.Ok() && Typed(g, s)
  {
    match step
    case Begin(p) =>
      && s.phase.Running? && p < |s.ops| && s.ops[p].Out?
      && |s.lh| + (Sum(Active, s.ops) + 1) * MAXOPBLOCKS <= LOGSIZE
    case End(p) =>
      && s.phase.Running? && p < |s.ops| && s.ops[p].In?
      && forall b | b in s.cache :: s.cache[b].touched != Some(p)
    case Ref(b) => !s.phase.Recovering? && g.Home(b)
    case Lock(b) => !s.phase.Recovering? && b in s.cache && s.cache[b].refs > 0 && !s.cache[b].locked
    case Fill(b) => Held(s, b) && !s.cache[b].valid
    case Modify(p, b, _) => Owns(s, p, b)
    case Check(p, b) => Owns(s, p, b) && (s.ops[p].left > 0 || b in s.lh) && |s.lh| < g.Capacity()
    case Append(p) =>
      && p < |s.ops| && s.ops[p].Adding?
      && s.phase.Running? && Held(s, s.ops[p].b) && s.cache[s.ops[p].b].touched == Some(p)
      && (s.ops[p].b in s.lh || |s.lh| < LOGSIZE)
    case Unlock(b) => Held(s, b) && s.cache[b].touched == None
    case Unref(b) => b in s.cache && s.cache[b].refs > if s.cache[b].locked then 1 else 0
    case Recycle(b) => b in s.cache && s.cache[b].refs == 0 && !s.cache[b].dirty
    case WriteLogBlock => s.phase.Logging? && s.phase.tail < |s.lh| && g.start + s.phase.tail + 1 < g.disksize
    case WriteHead => s.phase.Logging? && s.phase.tail == |s.lh|
    case InstallBlock =>
      && s.phase.Installing? && s.phase.tail < |s.lh| && g.start + s.phase.tail + 1 < g.disksize
      && !Held(s, s.lh[s.phase.tail])
    case EraseHead => s.phase.Installing? && s.phase.tail == |s.lh|
    case Finish => s.phase.Finishing?
    case Crash => HeadOk(g, s.disk)
    case RecoverBlock => s.phase.Recovering? && s.phase.tail < |s.lh| && g.start + s.phase.tail + 1 < g.disksize
    case RecoverErase => s.phase.Recovering? && s.phase.tail == |s.lh|
  }

  /** bwrite of a block no other process uses: the disk changes and the cache keeps a clean copy. */
  function Written(s: State, b: nat, data: Block): State
    requires b < |s.disk|
  {
    s.(disk := s.disk[b := data], cache := s.cache[b := Entry(data, true, false, 0, false, None)])
  }

  function Put(s: State, b: nat, e: Entry): State {
    s.(cache := s.cache[b := e])
  }

  function Got(s: State, b: nat): Entry {
    if b in s.cache then s.cache[b].(refs := s.cache[b].refs + 1) else Entry(ZeroBlock(), false, false, 1, false, None)
  }

  /** end_op: the last operation out starts the commit, which writes only if something was logged. */
  function Ended(s: State, p: Pid): State
    requires p < |s.ops|
  {
    var ops := s.ops[p := Out];
    s.(ops := ops, phase := if !Quiet(ops) then Running else if s.lh == [] then Finishing else Logging(0))
  }

  /** log_write under the lock: absorbed, or appended and charged to the operation. */
  function Appended(s: State, p: Pid): State
    requires p < |s.ops| && s.ops[p].Adding? && s.ops[p].b in s.cache
  {
    var b, left := s.ops[p].b, s.ops[p].left;
    Put(s, b, s.cache[b].(dirty := true, touched := None)).(
      ops := s.ops[p := In(if b in s.lh || left == 0 then left else left - 1)],
      lh := if b in s.lh then s.lh else s.lh + [b])
  }

  function LogBlockOut(g: Geometry, s: State): State
    requires Typed(g, s) && s.phase.Logging? && s.phase.tail < |s.lh| && g.start + s.phase.tail + 1 < g.disksize
  {
    Written(s, g.start + s.phase.tail + 1, Logical(s, s.lh[s.phase.tail])).(phase := Logging(s.phase.tail + 1))
  }

  function HeadOut(g: Geometry, s: State): State
    requires g.Ok() && Typed(g, s)
  {
    Written(s, g.start, PutHead(Logical(s, g.start), s.lh)).(
      phase := Installing(0),
      stable := seq(g.disksize, b requires 0 <= b < g.disksize => Logical(s, b)))
  }

  function BlockIn(g: Geometry, s: State): State
    requires Typed(g, s) && s.phase.Installing? && s.phase.tail < |s.lh| && g.start + s.phase.tail + 1 < g.disksize
  {
    var b := s.lh[s.phase.tail];
    var data := Logical(s, g.start + s.phase.tail + 1);
    var refs := if b in s.cache then s.cache[b].refs else 0;
    s.(disk := s.disk[b := data], cache := s.cache[b := Entry(data, true, false, refs, false, None)],
       phase := Installing(s.phase.tail + 1))
  }

  function BlockBack(g: Geometry, s: State): State
    requires Typed(g, s) && s.phase.Recovering? && s.phase.tail < |s.lh| && g.start + s.phase.tail + 1 < g.disksize
  {
    s.(disk := s.disk[s.lh[s.phase.tail] := s.disk[g.start + s.phase.tail + 1]], phase := Recovering(s.phase.tail + 1))
  }

  ghost function Apply(g: Geometry, s: State, step: Step): (t: State)
    requires g.Ok() && Typed(g, s) && Enabled(g, s, step)
  {
    match step
    case Begin(p) => s.(ops := s.ops[p := In(MAXOPBLOCKS)])
    case End(p) => Ended(s, p)
    case Ref(b) => Put(s, b, Got(s, b))
    case Lock(b) => Put(s, b, s.cache[b].(locked := true))
    case Fill(b) => Put(s, b, s.cache[b].(data := s.disk[b], valid := true))
    case Modify(p, b, data) => Put(s, b, s.cache[b].(data := data, touched := Some(p)))
    case Check(p, b) => Put(s, b, s.cache[b].(touched := Some(p))).(ops := s.ops[p := Adding(s.ops[p].left, b)])
    case Append(p) => Appended(s, p)
    case Unlock(b) => Put(s, b, s.cache[b].(locked := false))
    case Unref(b) => Put(s, b, s.cache[b].(refs := s.cache[b].refs - 1))
    case Recycle(b) => s.(cache := s.cache - {b})
    case WriteLogBlock => LogBlockOut(g, s)
    case WriteHead => HeadOut(g, s)
    case InstallBlock => BlockIn(g, s)
    case EraseHead => Written(s, g.start, PutHead(Logical(s, g.start), [])).(lh := [], phase := Finishing)
    case Finish => s.(phase := Running)
    case Crash => State(s.disk, map[], HeadBlocks(g, s.disk), seq(|s.ops|, p => Out), Recovering(0), s.stable)
    case RecoverBlock => BlockBack(g, s)
    case RecoverErase => s.(disk := s.disk[g.start := PutHead(s.disk[g.start], [])], lh := [], phase := Running)
  }

  // ----- the invariant -----

  predicate Shape(g: Geometry, s: State)
    requires g.Ok()
  {
    match s
    case State(disk, cache, lh, _, _, stable) =>
      |disk| == g.disksize && |stable| == g.disksize && g.IsLog(lh) && forall b | b in cache :: b < g.disksize
  }

  predicate EntryOk(g: Geometry, s: State, b: nat)
    requires g.Ok() && Shape(g, s) && b in s.cache
  {
    var e := s.cache[b];
    && (e.locked ==> e.refs > 0)
    && (e.dirty ==> e.valid)
    && (e.touched.Some? ==> e.locked && e.valid && Inside(s, e.touched.value))
    && (e.valid && !e.dirty && e.touched == None ==> e.data == s.disk[b])
    && (!g.Home(b) ==> e.refs == 0 && !e.dirty && e.valid)
  }

  predicate CacheInv(g: Geometry, s: State)
    requires g.Ok() && Shape(g, s)
  {
    forall b | b in s.cache :: EntryOk(g, s, b)
  }

  /** b is one of lh[from..]. */
  predicate Among(lh: seq<nat>, from: nat, b: nat) {
    exists i :: from <= i < |lh| && lh[i] == b
  }

  /** The blocks the pinned (B_DIRTY) buffers hold are exactly those of lh from position from on. */
  ghost predicate Pinned(s: State, from: nat)
    requires from <= |s.lh|
  {
    && (forall i | from <= i < |s.lh| :: s.lh[i] in s.cache && s.cache[s.lh[i]].dirty)
    && (forall b | b in s.cache && s.cache[b].dirty :: Among(s.lh, from, b))
  }

  /** What the header on disk names: the transaction once it is committed, else nothing. */
  function OnDisk(s: State): seq<nat> {
    if s.phase.Installing? || s.phase.Recovering? then s.lh else []
  }

  ghost predicate DiskInv(g: Geometry, s: State)
    requires g.Ok() && Shape(g, s)
  {
    HeadOk(g, s.disk) && HeadBlocks(g, s.disk) == OnDisk(s) && Promises(g, s.disk, OnDisk(s), s.stable)
  }

  ghost predicate PhaseInv(g: Geometry, s: State)
    requires g.Ok() && Shape(g, s)
  {
    match s.phase
    case Running => Pinned(s, 0)
    case Logging(tail) =>
      && Quiet(s.ops) && tail <= |s.lh| && Pinned(s, 0)
      && forall i | 0 <= i < tail :: s.disk[g.start + i + 1] == s.cache[s.lh[i]].data
    case Installing(tail) =>
      && Quiet(s.ops) && tail <= |s.lh| && Pinned(s, tail)
      && (forall i | 0 <= i < tail :: s.disk[s.lh[i]] == s.stable[s.lh[i]])
      && (forall i | tail <= i < |s.lh| :: s.cache[s.lh[i]].data == s.stable[s.lh[i]])
    case Finishing => Quiet(s.ops) && s.lh == [] && Pinned(s, 0)
    case Recovering(tail) =>
      && Quiet(s.ops) && s.cache == map[] && tail <= |s.lh|
      && (forall i | 0 <= i < tail :: s.disk[s.lh[i]] == s.stable[s.lh[i]])
  }

  /** Process p's place in log_write: it holds the buffer, and its budget or the log covers the block. */
  predicate AddingOk(g: Geometry, s: State, p: Pid)
    requires p < |s.ops|
  {
    s.ops[p].Adding? ==>
      && s.ops[p].b in s.cache && s.cache[s.ops[p].b].touched == Some(p)
      && (s.ops[p].left > 0 || s.ops[p].b in s.lh) && g.size > 1 && s.phase.Running?
  }

  /** Logged blocks and unused budgets fit the reservation. */
  ghost predicate Budgeted(g: Geometry, s: State) {
    match s
    case State(_, _, lh, ops, _, _) =>
      && |lh| + Sum(Budget, ops) <= LOGSIZE
      && (forall p | 0 <= p < |ops| :: Budget(ops[p]) <= MAXOPBLOCKS)
      && forall p | 0 <= p < |ops| :: AddingOk(g, s, p)
  }

  ghost predicate Consistent(g: Geometry, s: State) {
    g.Ok() && Shape(g, s) && CacheInv(g, s) && DiskInv(g, s) && PhaseInv(g, s)
  }

  ghost predicate Inv(g: Geometry, s: State) {
    Consistent(g, s) && Budgeted(g, s)
  }

  /** The log is never overrun: it holds all that is ever reserved, or nothing passes
      log_write's test, or there are fewer home blocks than the log has blocks. */
  predicate Roomy(g: Geometry) {
    g.size > LOGSIZE || g.size == 1 || g.disksize < 2 * g.size
  }

  // ----- crash atomicity in one state -----

  /** Whatever the phase, recovering the disk as it stands yields the home blocks
      promised by the last write_head that reached it. */
  lemma RecoversStable(g: Geometry, s: State)
    requires Inv(g, s)
    ensures HeadOk(g, s.disk) && SameHome(g, Recovered(g, s.disk), s.stable)
  {
    RecoveredIsPromise(g, s.disk, s.stable);
  }

  // ----- every step keeps the invariant -----

  predicate CacheOnly(step: Step) {
    step.Ref? || step.Lock? || step.Fill? || step.Unlock? || step.Unref? || step.Recycle?
  }

  predicate IsDirty(s: State, b: nat) {
    b in s.cache && s.cache[b].dirty
  }

  /** Changing one buffer keeps the invariant when it stays as dirty as it was and,
      during a commit, a dirty one keeps its data. */
  lemma PutEntryKeepsInv(g: Geometry, s: State, b: nat, e: Entry)
    requires Consistent(g, s) && !s.phase.Recovering? && b < g.disksize
    requires e.dirty == IsDirty(s, b)
    requires e.dirty && !s.phase.Running? ==> e.data == s.cache[b].data
    requires EntryOk(g, s.(cache := s.cache[b := e]), b)
    ensures Consistent(g, s.(cache := s.cache[b := e]))
  {
    var t := s.(cache := s.cache[b := e]);
    forall c | c in t.cache ensures EntryOk(g, t, c) {
      if c != b { assert EntryOk(g, s, c); }
    }
    var from := if s.phase.Installing? then s.phase.tail else 0;
    PutEntryKeepsPins(s, b, e, from);
  }

  lemma PutEntryKeepsPins(s: State, b: nat, e: Entry, from: nat)
    requires from <= |s.lh| && Pinned(s, from)
    requires e.dirty == IsDirty(s, b)
    ensures Pinned(s.(cache := s.cache[b := e]), from)
  {
  }

  lemma RecycleKeepsPins(s: State, b: nat, from: nat)
    requires from <= |s.lh| && Pinned(s, from) && !IsDirty(s, b)
    ensures Pinned(s.(cache := s.cache - {b}), from)
    ensures forall i | from <= i < |s.lh| :: s.lh[i] != b
  {
    forall i | from <= i < |s.lh| ensures s.lh[i] != b {
      assert s.cache[s.lh[i]].dirty;
    }
  }

  lemma RecycleKeepsInv(g: Geometry, s: State, b: nat)
    requires Inv(g, s) && Enabled(g, s, Recycle(b))
    ensures Consistent(g, Apply(g, s, Recycle(b)))
  {
    var t := Apply(g, s, Recycle(b));
    forall c | c in t.cache ensures EntryOk(g, t, c) {
      assert EntryOk(g, s, c);
    }
    assert !s.phase.Recovering?;
    RecycleKeepsPins(s, b, if s.phase.Installing? then s.phase.tail else 0);
  }

  lemma CacheStepKeepsInv(g: Geometry, s: State, step: Step)
    requires Inv(g, s) && Enabled(g, s, step) && CacheOnly(step)
    ensures Consistent(g, Apply(g, s, step))
  {
    match step
    case Recycle(b) => RecycleKeepsInv(g, s, b);
    case Ref(b) => PutEntryKeepsInv(g, s, b, Apply(g, s, step).cache[b]);
    case Lock(b) => assert EntryOk(g, s, b); PutEntryKeepsInv(g, s, b, Apply(g, s, step).cache[b]);
    case Fill(b) => assert EntryOk(g, s, b); PutEntryKeepsInv(g, s, b, Apply(g, s, step).cache[b]);
    case Unlock(b) => assert EntryOk(g, s, b); PutEntryKeepsInv(g, s, b, Apply(g, s, step).cache[b]);
    case Unref(b) => assert EntryOk(g, s, b); PutEntryKeepsInv(g, s, b, Apply(g, s, step).cache[b]);
  }

  lemma OpStepKeepsInv(g: Geometry, s: State, step: Step)
    requires Inv(g, s) && Enabled(g, s, step) && (step.Begin? || step.End? || step.Finish?)
    ensures Consistent(g, Apply(g, s, step))
  {
    var t := Apply(g, s, step);
    forall c | c in t.cache ensures EntryOk(g, t, c) {
      assert EntryOk(g, s, c);
    }
  }

  lemma CheckKeepsInv(g: Geometry, s: State, p: Pid, b: nat)
    requires Inv(g, s) && Enabled(g, s, Check(p, b))
    ensures Consistent(g, Apply(g, s, Check(p, b)))
  {
    var t := Apply(g, s, Check(p, b));
    forall c | c in t.cache ensures EntryOk(g, t, c) {
      assert EntryOk(g, s, c);
    }
    PutEntryKeepsPins(s, b, t.cache[b], 0);
    assert Pinned(t, 0);
  }

  lemma LogWritePins(s: State, t: State, b: nat)
    requires Pinned(s, 0) && b in s.cache
    requires t.lh == if b in s.lh then s.lh else s.lh + [b]
    requires exists e: Entry :: e.dirty && t.cache == s.cache[b := e]
    ensures Pinned(t, 0)
  {
    forall c | IsDirty(t, c) ensures Among(t.lh, 0, c) {
      if c == b {
        assert b in s.lh || t.lh[|s.lh|] == b;
      } else {
        var i :| 0 <= i < |s.lh| && s.lh[i] == c;
        assert t.lh[i] == c;
      }
    }
  }

  /** The place of a home block among the home blocks. */
  function Rank(g: Geometry, b: nat): (r: nat)
    requires g.Ok() && g.Home(b)
    ensures r < g.disksize - g.size
  {
    if b < g.start then b else b - g.size
  }

  /** Different home blocks are no more than there are. */
  lemma HomesBound(g: Geometry, lh: seq<nat>)
    requires g.Ok() && Distinct(lh) && forall i | 0 <= i < |lh| :: g.Home(lh[i])
    ensures |lh| <= g.disksize - g.size
  {
    var ranks := seq(|lh|, i requires 0 <= i < |lh| => Rank(g, lh[i]));
    forall i, j | 0 <= i < j < |lh| ensures ranks[i] != ranks[j] {
      assert lh[i] != lh[j];
    }
    DistinctBelow(ranks, g.disksize - g.size);
  }

  lemma {:induction false} DistinctBelow(s: seq<nat>, n: nat)
    requires Distinct(s) && forall i | 0 <= i < |s| :: s[i] < n
    ensures |s| <= n
  {
    if s != [] {
      assert s[0] < n;
      if k: nat :| k < |s| && s[k] == n - 1 {
        var rest := s[..k] + s[k + 1..];
        forall i | 0 <= i < |rest| ensures rest[i] == (if i < k then s[i] else s[i + 1]) && rest[i] < n - 1 {
          assert rest[i] != s[k];
        }
        DistinctBelow(rest, n - 1);
      } else {
        DistinctBelow(s, n - 1);
      }
    }
  }

  /** With the budget or the log covering the block the append fits the log. */
  lemma AppendFits(g: Geometry, s: State, p: Pid)
    requires Inv(g, s) && p < |s.ops| && s.ops[p].Adding? && s.ops[p].b !in s.lh
    ensures |s.lh| < LOGSIZE
    ensures Roomy(g) ==> |s.lh| < g.Capacity()
  {
    assert AddingOk(g, s, p) && EntryOk(g, s, s.ops[p].b);
    SumAtLeast(Budget, s.ops, p);
    HomesBound(g, s.lh + [s.ops[p].b]);
  }

  /** A process in log_write is never held up at its append. */
  lemma AppendEnabled(g: Geometry, s: State, p: Pid)
    requires Inv(g, s) && p < |s.ops| && s.ops[p].Adding?
    ensures Enabled(g, s, Append(p))
  {
    assert AddingOk(g, s, p) && EntryOk(g, s, s.ops[p].b);
    if s.ops[p].b !in s.lh {
      AppendFits(g, s, p);
    }
  }

  lemma AppendKeepsInv(g: Geometry, s: State, p: Pid)
    requires Inv(g, s) && Enabled(g, s, Append(p)) && Roomy(g)
    ensures Consistent(g, Apply(g, s, Append(p)))
  {
    if s.ops[p].b !in s.lh {
      AppendFits(g, s, p);
    }
    AppendedConsistent(g, s, p, s.ops[p].b, Apply(g, s, Append(p)));
  }

  lemma AppendedConsistent(g: Geometry, s: State, p: Pid, b: nat, t: State)
    requires Consistent(g, s) && s.phase.Running? && p < |s.ops| && Held(s, b) && s.cache[b].touched == Some(p)
    requires t == s.(ops := t.ops, lh := t.lh, cache := s.cache[b := s.cache[b].(dirty := true, touched := None)])
    requires |t.ops| == |s.ops| && t.ops[p].In? && forall q | 0 <= q < |s.ops| && q != p :: t.ops[q] == s.ops[q]
    requires t.lh == if b in s.lh then s.lh else s.lh + [b]
    requires b in s.lh || |s.lh| < g.Capacity()
    ensures Consistent(g, t)
  {
    assert EntryOk(g, s, b);
    LogWritePins(s, t, b);
    assert g.IsLog(t.lh);
    forall c | c in t.cache ensures EntryOk(g, t, c) {
      assert EntryOk(g, s, c);
    }
  }

  // ----- budgets -----

  /** Reserved space: an operation's budget is at most MAXOPBLOCKS. */
  lemma {:induction false} BudgetBound(ops: seq<Op>)
    requires forall p | 0 <= p < |ops| :: Budget(ops[p]) <= MAXOPBLOCKS
    ensures Sum(Budget, ops) <= MAXOPBLOCKS * Sum(Active, ops)
  {
    if ops != [] {
      BudgetBound(ops[1..]);
    }
  }

  /** Steps that leave the operations alone keep the budgets; one in log_write keeps its buffer. */
  lemma SameOpsKeepBudget(g: Geometry, s: State, t: State)
    requires Budgeted(g, s) && t.ops == s.ops && |t.lh| <= |s.lh|
    requires (t.phase == s.phase && t.lh == s.lh) || !s.phase.Running?
    requires forall b | b in s.cache && s.cache[b].touched.Some? && s.phase.Running? ::
      b in t.cache && (t.cache[b].touched == s.cache[b].touched || !Awaited(s, b))
    ensures Budgeted(g, t)
  {
    forall p | 0 <= p < |t.ops| ensures AddingOk(g, t, p) {
      assert AddingOk(g, s, p);
    }
  }

  /** Some process in log_write has buffer b. */
  predicate Awaited(s: State, b: nat) {
    exists p :: 0 <= p < |s.ops| && s.ops[p].Adding? && s.ops[p].b == b
  }

  lemma OpStepKeepsBudget(g: Geometry, s: State, step: Step)
    requires Inv(g, s) && Enabled(g, s, step) && (step.Begin? || step.End? || step.Check? || step.Append?)
    ensures Budgeted(g, Apply(g, s, step))
  {
    var t := Apply(g, s, step);
    var p := step.p;
    SumUpdate(Budget, s.ops, p, t.ops[p]);
    if step.Begin? {
      BudgetBound(s.ops);
    } else if step.Append? {
      assert AddingOk(g, s, p);
    }
    forall q | 0 <= q < |t.ops| ensures AddingOk(g, t, q) {
      assert AddingOk(g, s, q);
    }
  }

  lemma StepKeepsBudget(g: Geometry, s: State, step: Step)
    requires Inv(g, s) && Enabled(g, s, step)
    ensures Budgeted(g, Apply(g, s, step))
  {
    if step.Begin? || step.End? || step.Check? || step.Append? {
      OpStepKeepsBudget(g, s, step);
    } else if step.Crash? {
      SumZero(Budget, Apply(g, s, step).ops);
    } else {
      if step.Recycle? {
        assert EntryOk(g, s, step.b);
      } else if step.Modify? {
        ModifyIsNotAwaited(g, s, step.p, step.b);
      }
      SameOpsKeepBudget(g, s, Apply(g, s, step));
    }
  }

  lemma ModifyIsNotAwaited(g: Geometry, s: State, p: Pid, b: nat)
    requires Budgeted(g, s) && Owns(s, p, b)
    ensures !Awaited(s, b)
  {
    forall q | 0 <= q < |s.ops| && s.ops[q].Adding? ensures s.ops[q].b != b {
      assert AddingOk(g, s, q);
    }
  }

  // ----- the commit's own steps -----

  /** A bwrite of a log-region block leaves every home buffer and home block alone. */
  lemma WrittenKeepsCache(g: Geometry, s: State, b: nat, data: Block)
    requires g.Ok() && Shape(g, s) && CacheInv(g, s) && g.start <= b < g.start + g.size
    ensures var t := Written(s, b, data); Shape(g, t) && CacheInv(g, t)
    ensures forall from: nat | from <= |s.lh| && Pinned(s, from) :: Pinned(Written(s, b, data), from)
  {
    var t := Written(s, b, data);
    forall c | c in t.cache ensures EntryOk(g, t, c) {
      if c != b { assert EntryOk(g, s, c); }
    }
    forall from: nat | from <= |s.lh| && Pinned(s, from) ensures Pinned(t, from) {
      assert b in s.cache ==> EntryOk(g, s, b);
      PutEntryKeepsPins(s, b, t.cache[b], from);
      assert t.cache == s.cache[b := t.cache[b]];
    }
  }

  /** The cache invariant does not read the phase or the promise. */
  lemma SameCacheInv(g: Geometry, u: State, t: State)
    requires g.Ok() && Shape(g, u) && CacheInv(g, u) && Shape(g, t)
    requires t.disk == u.disk && t.cache == u.cache && t.ops == u.ops
    ensures CacheInv(g, t)
  {
    forall b | b in t.cache ensures EntryOk(g, t, b) {
      assert EntryOk(g, u, b);
    }
  }

  lemma WriteLogBlockKeepsInv(g: Geometry, s: State)
    requires Inv(g, s) && Enabled(g, s, WriteLogBlock)
    ensures Consistent(g, Apply(g, s, WriteLogBlock))
  {
    LogBlockWritten(g, s, Logical(s, s.lh[s.phase.tail]), Apply(g, s, WriteLogBlock));
  }

  lemma LogBlockWritten(g: Geometry, s: State, data: Block, t: State)
    requires Consistent(g, s) && s.phase.Logging? && s.phase.tail < |s.lh| && data == Logical(s, s.lh[s.phase.tail])
    requires t == Written(s, g.start + s.phase.tail + 1, data).(phase := Logging(s.phase.tail + 1))
    ensures Consistent(g, t)
  {
    assert CacheInv(g, t) && Pinned(t, 0) by {
      var u := Written(s, g.start + s.phase.tail + 1, data);
      WrittenKeepsCache(g, s, g.start + s.phase.tail + 1, data);
      SameCacheInv(g, u, t);
      assert Pinned(u, 0);
    }
    LoggedDataIsLogical(g, s);
    WriteLogBlockPhase(g, s, t);
  }

  lemma WriteLogBlockPhase(g: Geometry, s: State, t: State)
    requires g.Ok() && Shape(g, s) && Shape(g, t) && DiskInv(g, s) && PhaseInv(g, s) && s.phase.Logging?
    requires s.phase.tail < |s.lh|
    requires t.lh == s.lh && t.ops == s.ops && t.stable == s.stable && t.phase == Logging(s.phase.tail + 1)
    requires var b := g.start + s.phase.tail + 1;
      && (forall c | c != b && c in s.cache :: c in t.cache && t.cache[c] == s.cache[c])
      && s.lh[s.phase.tail] in s.cache && t.disk == s.disk[b := s.cache[s.lh[s.phase.tail]].data]
    requires Pinned(t, 0)
    ensures DiskInv(g, t) && PhaseInv(g, t)
  {
    assert t.disk[g.start] == s.disk[g.start];
    forall i | 0 <= i < t.phase.tail ensures t.disk[g.start + i + 1] == t.cache[t.lh[i]].data {
      assert g.Home(s.lh[i]) && s.cache[s.lh[i]].dirty;
    }
  }

  lemma WriteHeadKeepsInv(g: Geometry, s: State)
    requires Inv(g, s) && Enabled(g, s, WriteHead)
    ensures Consistent(g, Apply(g, s, WriteHead))
  {
    HeadIsLogical(g, s);
    HeadWritten(g, s, PutHead(s.disk[g.start], s.lh), Apply(g, s, WriteHead));
  }

  lemma HeadWritten(g: Geometry, s: State, data: Block, t: State)
    requires Consistent(g, s) && s.phase == Logging(|s.lh|) && data == PutHead(s.disk[g.start], s.lh)
    requires |t.stable| == g.disksize && forall b | 0 <= b < g.disksize :: t.stable[b] == Logical(s, b)
    requires t == Written(s, g.start, data).(phase := Installing(0), stable := t.stable)
    ensures Consistent(g, t)
  {
    assert CacheInv(g, t) && Pinned(t, 0) by {
      var u := Written(s, g.start, data);
      WrittenKeepsCache(g, s, g.start, data);
      SameCacheInv(g, u, t);
      assert Pinned(u, 0);
    }
    LoggedDataIsLogical(g, s);
    forall b | g.Home(b) && b !in s.lh ensures t.disk[b] == t.stable[b] {
      assert IsDirty(s, b) ==> Among(s.lh, 0, b);
      CleanIsDisk(g, s, b);
    }
    WriteHeadPhase(g, s, t);
  }

  lemma WriteHeadPhase(g: Geometry, s: State, t: State)
    requires g.Ok() && Shape(g, s) && Shape(g, t) && PhaseInv(g, s) && s.phase == Logging(|s.lh|)
    requires t.lh == s.lh && t.ops == s.ops && t.phase == Installing(0)
    requires t.disk == s.disk[g.start := PutHead(s.disk[g.start], s.lh)]
    requires forall c | c != g.start && c in s.cache :: c in t.cache && t.cache[c] == s.cache[c]
    requires forall i | 0 <= i < |s.lh| :: s.lh[i] in s.cache && t.stable[s.lh[i]] == s.cache[s.lh[i]].data
    requires forall b | g.Home(b) && b !in s.lh :: t.disk[b] == t.stable[b]
    requires Pinned(t, 0)
    ensures DiskInv(g, t) && PhaseInv(g, t)
  {
    HeadRoundTrip(g, s.disk, s.lh);
    forall i | 0 <= i < |t.lh|
      ensures t.disk[g.start + i + 1] == t.stable[t.lh[i]] && t.cache[t.lh[i]].data == t.stable[t.lh[i]]
    {
      assert g.Home(s.lh[i]);
    }
  }

  /** No buffer of a log-region block differs from the disk. */
  lemma HeadIsLogical(g: Geometry, s: State)
    requires g.Ok() && Shape(g, s) && CacheInv(g, s)
    ensures Logical(s, g.start) == s.disk[g.start]
    ensures forall b | g.start <= b < g.start + g.size :: Logical(s, b) == s.disk[b]
  {
    forall b | g.start <= b < g.start + g.size ensures Logical(s, b) == s.disk[b] {
      assert b in s.cache ==> EntryOk(g, s, b);
    }
  }

  lemma LoggedDataIsLogical(g: Geometry, s: State)
    requires Consistent(g, s) && s.phase.Logging?
    ensures forall i | 0 <= i < |s.lh| :: s.lh[i] in s.cache && s.cache[s.lh[i]].data == Logical(s, s.lh[i])
  {
    forall i | 0 <= i < |s.lh| ensures s.lh[i] in s.cache && s.cache[s.lh[i]].data == Logical(s, s.lh[i]) {
      assert s.cache[s.lh[i]].dirty && EntryOk(g, s, s.lh[i]);
    }
  }

  /** With no operation outstanding, a block that is not logged reads as on disk. */
  lemma CleanIsDisk(g: Geometry, s: State, b: nat)
    requires g.Ok() && Shape(g, s) && CacheInv(g, s) && Quiet(s.ops) && b < g.disksize
    requires !IsDirty(s, b)
    ensures Logical(s, b) == s.disk[b]
  {
    assert b in s.cache ==> EntryOk(g, s, b);
  }

  lemma InstallBlockKeepsInv(g: Geometry, s: State)
    requires Inv(g, s) && Enabled(g, s, InstallBlock)
    ensures Consistent(g, Apply(g, s, InstallBlock))
  {
    HeadIsLogical(g, s);
    assert s.cache[s.lh[s.phase.tail]].dirty;
    BlockInstalled(g, s, s.lh[s.phase.tail], Apply(g, s, InstallBlock));
  }

  lemma BlockInstalled(g: Geometry, s: State, b: nat, t: State)
    requires Consistent(g, s) && s.phase.Installing? && s.phase.tail < |s.lh| && b == s.lh[s.phase.tail]
    requires b in s.cache && !s.cache[b].locked
    requires var data := s.disk[g.start + s.phase.tail + 1];
      t == s.(disk := s.disk[b := data], cache := s.cache[b := Entry(data, true, false, s.cache[b].refs, false, None)],
              phase := Installing(s.phase.tail + 1))
    ensures Consistent(g, t)
  {
    InstallCache(g, s, t, b);
    InstallPins(g, s, t);
    InstallPhase(g, s, t);
  }

  lemma InstallCache(g: Geometry, s: State, t: State, b: nat)
    requires g.Ok() && Shape(g, s) && CacheInv(g, s) && Shape(g, t) && g.Home(b) && b in s.cache && !s.cache[b].locked
    requires t.ops == s.ops && |t.disk| == |s.disk| && forall c | 0 <= c < |s.disk| && c != b :: t.disk[c] == s.disk[c]
    requires t.cache == s.cache[b := Entry(t.disk[b], true, false, s.cache[b].refs, false, None)]
    ensures CacheInv(g, t)
  {
    forall c | c in t.cache ensures EntryOk(g, t, c) {
      assert EntryOk(g, s, c);
    }
  }

  lemma InstallPhase(g: Geometry, s: State, t: State)
    requires g.Ok() && Shape(g, s) && Shape(g, t) && DiskInv(g, s) && PhaseInv(g, s)
    requires s.phase.Installing? && s.phase.tail < |s.lh|
    requires t.lh == s.lh && t.ops == s.ops && t.stable == s.stable && t.phase == Installing(s.phase.tail + 1)
    requires t.disk == s.disk[s.lh[s.phase.tail] := s.disk[g.start + s.phase.tail + 1]]
    requires forall c | c != s.lh[s.phase.tail] && c in s.cache :: c in t.cache && t.cache[c] == s.cache[c]
    requires Pinned(t, s.phase.tail + 1)
    ensures DiskInv(g, t) && PhaseInv(g, t)
  {
    InstallKeepsPromise(g, s.disk, s.lh, s.stable, s.phase.tail);
    InstalledSoFar(g, s.disk, s.lh, s.stable, s.phase.tail, t.disk);
    forall i | s.phase.tail < i < |s.lh| ensures t.cache[s.lh[i]].data == s.stable[s.lh[i]] {
      assert s.lh[i] != s.lh[s.phase.tail] && s.cache[s.lh[i]].dirty;
    }
  }

  /** One more of the logged blocks is in place. */
  lemma InstalledSoFar(g: Geometry, d: Disk, lh: seq<nat>, stable: Disk, tail: nat, e: Disk)
    requires g.Ok() && |d| == |stable| == g.disksize && g.IsLog(lh) && tail < |lh| && Promises(g, d, lh, stable)
    requires forall i | 0 <= i < tail :: d[lh[i]] == stable[lh[i]]
    requires e == d[lh[tail] := d[g.start + tail + 1]]
    ensures forall i | 0 <= i < tail + 1 :: lh[i] < |e| && e[lh[i]] == stable[lh[i]]
  {
    forall i | 0 <= i < tail + 1 ensures lh[i] < |e| && e[lh[i]] == stable[lh[i]] {
      assert g.Home(lh[i]) && (i < tail ==> lh[i] != lh[tail]);
    }
  }

  lemma InstallPins(g: Geometry, s: State, t: State)
    requires g.Ok() && g.IsLog(s.lh) && s.phase.Installing? && s.phase.tail < |s.lh| && Pinned(s, s.phase.tail)
    requires t.lh == s.lh
    requires forall c | c != s.lh[s.phase.tail] && c in s.cache :: c in t.cache && t.cache[c] == s.cache[c]
    requires forall c | c != s.lh[s.phase.tail] && c in t.cache :: c in s.cache
    requires s.lh[s.phase.tail] in t.cache && !t.cache[s.lh[s.phase.tail]].dirty
    ensures Pinned(t, s.phase.tail + 1)
  {
    var tail := s.phase.tail;
    forall c | IsDirty(t, c) ensures Among(t.lh, tail + 1, c) {
      var i :| tail <= i < |s.lh| && s.lh[i] == c;
    }
    forall i | tail < i < |s.lh| ensures s.lh[i] in t.cache && t.cache[s.lh[i]].dirty {
      assert s.cache[s.lh[i]].dirty;
    }
  }

  lemma EraseHeadKeepsInv(g: Geometry, s: State)
    requires Inv(g, s) && Enabled(g, s, EraseHead)
    ensures Consistent(g, Apply(g, s, EraseHead))
  {
    var data := PutHead(Logical(s, g.start), []);
    var u := Written(s, g.start, data);
    var t := Apply(g, s, EraseHead);
    WrittenKeepsCache(g, s, g.start, data);
    SameCacheInv(g, u, t);
    HeadIsLogical(g, s);
    InstalledNeedsNoLog(g, s.disk, s.lh, s.stable, t.disk);
    forall b | b in t.cache ensures !t.cache[b].dirty {
      assert IsDirty(s, b) ==> Among(s.lh, |s.lh|, b);
    }
  }

  // ----- crash and recovery -----

  lemma CrashKeepsInv(g: Geometry, s: State)
    requires Inv(g, s)
    ensures Enabled(g, s, Crash) && Consistent(g, Apply(g, s, Crash))
  {
  }

  lemma RecoverBlockKeepsInv(g: Geometry, s: State)
    requires Inv(g, s) && Enabled(g, s, RecoverBlock)
    ensures Consistent(g, Apply(g, s, RecoverBlock))
  {
    RecoverBlockPhase(g, s, Apply(g, s, RecoverBlock));
  }

  lemma RecoverBlockPhase(g: Geometry, s: State, t: State)
    requires g.Ok() && Shape(g, s) && Shape(g, t) && DiskInv(g, s) && PhaseInv(g, s) && s.phase.Recovering?
    requires s.phase.tail < |s.lh|
    requires t.lh == s.lh && t.ops == s.ops && t.stable == s.stable && t.cache == s.cache
    requires t.phase == Recovering(s.phase.tail + 1)
    requires t.disk == s.disk[s.lh[s.phase.tail] := s.disk[g.start + s.phase.tail + 1]]
    ensures DiskInv(g, t) && PhaseInv(g, t)
  {
    InstallKeepsPromise(g, s.disk, s.lh, s.stable, s.phase.tail);
    InstalledSoFar(g, s.disk, s.lh, s.stable, s.phase.tail, t.disk);
  }

  lemma RecoverEraseKeepsInv(g: Geometry, s: State)
    requires Inv(g, s) && Enabled(g, s, RecoverErase)
    ensures Consistent(g, Apply(g, s, RecoverErase))
  {
    RecoveryErased(g, s, Apply(g, s, RecoverErase));
  }

  lemma RecoveryErased(g: Geometry, s: State, t: State)
    requires Consistent(g, s) && s.phase == Recovering(|s.lh|)
    requires t == State(s.disk[g.start := PutHead(s.disk[g.start], [])], map[], [], s.ops, Running, s.stable)
    ensures Consistent(g, t)
  {
    InstalledNeedsNoLog(g, s.disk, s.lh, s.stable, t.disk);
  }

  lemma ModifyKeepsInv(g: Geometry, s: State, p: Pid, b: nat, data: Block)
    requires Inv(g, s) && Enabled(g, s, Modify(p, b, data))
    ensures Consistent(g, Apply(g, s, Modify(p, b, data)))
  {
    assert EntryOk(g, s, b);
    PutEntryKeepsInv(g, s, b, s.cache[b].(data := data, touched := Some(p)));
  }

  lemma DiskStepKeepsInv(g: Geometry, s: State, step: Step)
    requires Inv(g, s) && Enabled(g, s, step) && !s.phase.Running? && !CacheOnly(step)
    ensures Consistent(g, Apply(g, s, step))
  {
    match step
    case WriteLogBlock => WriteLogBlockKeepsInv(g, s);
    case WriteHead => WriteHeadKeepsInv(g, s);
    case InstallBlock => InstallBlockKeepsInv(g, s);
    case EraseHead => EraseHeadKeepsInv(g, s);
    case Finish => OpStepKeepsInv(g, s, step);
    case Crash => CrashKeepsInv(g, s);
    case RecoverBlock => RecoverBlockKeepsInv(g, s);
    case RecoverErase => RecoverEraseKeepsInv(g, s);
  }

  /** Only the append needs room in the log. */
  lemma OtherStepKeepsInv(g: Geometry, s: State, step: Step)
    requires Inv(g, s) && Enabled(g, s, step) && !step.Append?
    ensures Inv(g, Apply(g, s, step))
  {
    StepKeepsBudget(g, s, step);
    if CacheOnly(step) {
      CacheStepKeepsInv(g, s, step);
    } else if !s.phase.Running? {
      DiskStepKeepsInv(g, s, step);
    } else {
      match step
      case Begin(_) => OpStepKeepsInv(g, s, step);
      case End(_) => OpStepKeepsInv(g, s, step);
      case Modify(p, b, data) => ModifyKeepsInv(g, s, p, b, data);
      case Check(p, b) => CheckKeepsInv(g, s, p, b);
      case Crash => CrashKeepsInv(g, s);
    }
  }

  lemma StepKeepsInv(g: Geometry, s: State, step: Step)
    requires Inv(g, s) && Enabled(g, s, step) && Roomy(g)
    ensures Inv(g, Apply(g, s, step))
  {
    if step.Append? {
      AppendKeepsInv(g, s, step.p);
      StepKeepsBudget(g, s, step);
    } else {
      OtherStepKeepsInv(g, s, step);
    }
  }

  // ----- what each step does to the logical blocks and to the promise -----

  /** Cache transparency: only a holder's own modification and a crash change what
      any home block reads as; recycling, filling, logging, committing and
      recovering do not. */
  lemma StepIsTransparent(g: Geometry, s: State, step: Step)
    requires Inv(g, s) && Enabled(g, s, step) && !step.Crash? && !s.phase.Recovering?
    ensures |Apply(g, s, step).disk| == g.disksize
    ensures forall b | g.Home(b) && !(step.Modify? && step.b == b) :: Logical(Apply(g, s, step), b) == Logical(s, b)
    ensures step.Modify? ==> Logical(Apply(g, s, step), step.b) == step.data
  {
    forall b | g.Home(b) && !(step.Modify? && step.b == b) ensures Logical(Apply(g, s, step), b) == Logical(s, b) {
      BlockStepIsTransparent(g, s, step, b);
    }
  }

  lemma BlockStepIsTransparent(g: Geometry, s: State, step: Step, b: nat)
    requires Inv(g, s) && Enabled(g, s, step) && !step.Crash? && !s.phase.Recovering?
    requires g.Home(b) && !(step.Modify? && step.b == b)
    ensures Logical(Apply(g, s, step), b) == Logical(s, b)
  {
    if step.InstallBlock? {
      InstallIsTransparent(g, s, b);
    } else if step.Recycle? {
      assert b in s.cache ==> EntryOk(g, s, b);
    }
  }

  lemma InstallIsTransparent(g: Geometry, s: State, b: nat)
    requires Inv(g, s) && Enabled(g, s, InstallBlock) && g.Home(b)
    ensures Logical(Apply(g, s, InstallBlock), b) == Logical(s, b)
  {
    InstalledReads(g, s);
    assert s.lh[s.phase.tail] != b ==> g.Home(s.lh[s.phase.tail]);
  }

  /** The logged copy of the next block to install is what the block reads as. */
  lemma InstalledReads(g: Geometry, s: State)
    requires Consistent(g, s) && s.phase.Installing? && s.phase.tail < |s.lh|
    ensures Logical(s, s.lh[s.phase.tail]) == Logical(s, g.start + s.phase.tail + 1)
  {
    HeadIsLogical(g, s);
    var c := s.lh[s.phase.tail];
    assert s.cache[c].dirty && EntryOk(g, s, c);
  }

  /** Only write_head moves the promise, and it moves it to the logical blocks of
      that moment, when no operation is outstanding. */
  lemma PromiseMovesAtWriteHead(g: Geometry, s: State, step: Step)
    requires Inv(g, s) && Enabled(g, s, step)
    ensures !step.WriteHead? ==> Apply(g, s, step).stable == s.stable
    ensures step.WriteHead? ==> Quiet(s.ops) && forall b | g.Home(b) :: Apply(g, s, step).stable[b] == Logical(s, b)
  {
  }

  /** From log_write until the header is written, the home block on disk keeps its committed contents. */
  lemma LoggedBlockStaysOnDisk(g: Geometry, s: State, b: nat)
    requires Inv(g, s) && (s.phase.Running? || s.phase.Logging?) && g.Home(b)
    ensures s.disk[b] == s.stable[b]
    ensures b in s.lh <==> IsDirty(s, b)
  {
    if IsDirty(s, b) { assert Among(s.lh, 0, b); }
  }

  // ----- runs -----

  /** Boot on a disk whose log is empty, as mkfs leaves it. */
  ghost predicate Init(g: Geometry, s: State) {
    && g.Ok() && |s.disk| == g.disksize && HeadCount(g, s.disk) == 0
    && Quiet(s.ops) && s == State(s.disk, map[], [], s.ops, Running, s.disk)
  }

  ghost predicate Run(g: Geometry, states: seq<State>, steps: seq<Step>) {
    && g.Ok() && |states| == |steps| + 1 && Init(g, states[0])
    && forall i | 0 <= i < |steps| ::
        Typed(g, states[i]) && Enabled(g, states[i], steps[i]) && states[i + 1] == Apply(g, states[i], steps[i])
  }

  lemma InitInv(g: Geometry, s: State)
    requires Init(g, s)
    ensures Inv(g, s)
  {
    SumZero(Budget, s.ops);
  }

  lemma {:induction false} RunKeepsInv(g: Geometry, states: seq<State>, steps: seq<Step>, k: nat)
    requires Roomy(g) && Run(g, states, steps) && k < |states|
    ensures Inv(g, states[k])
  {
    if k == 0 {
      InitInv(g, states[0]);
    } else {
      RunKeepsInv(g, states, steps, k - 1);
      StepKeepsInv(g, states[k - 1], steps[k - 1]);
    }
  }

  /** The position after the last write_head among the first k steps, or 0. */
  function LastCommit(steps: seq<Step>, k: nat): (c: nat)
    requires k <= |steps|
    ensures c <= k
    ensures c > 0 ==> steps[c - 1].WriteHead?
    ensures forall i | c <= i < k :: !steps[i].WriteHead?
  {
    if k == 0 then 0 else if steps[k - 1].WriteHead? then k else LastCommit(steps, k - 1)
  }

  /** The contents of block b at the moment the last write_head among the first k
      steps reached the disk, or on the initial disk if none has. */
  function Committed(g: Geometry, states: seq<State>, steps: seq<Step>, k: nat, b: nat): Block
    requires Sized(g, states, steps) && k <= |steps| && b < g.disksize
  {
    var c := LastCommit(steps, k);
    if c == 0 then states[0].disk[b] else Logical(states[c - 1], b)
  }

  predicate Sized(g: Geometry, states: seq<State>, steps: seq<Step>) {
    |states| == |steps| + 1 && |states[0].disk| == g.disksize
    && forall i | 0 <= i < |steps| :: |states[i].disk| == g.disksize
  }

  lemma RunIsSized(g: Geometry, states: seq<State>, steps: seq<Step>)
    requires Run(g, states, steps)
    ensures Sized(g, states, steps)
  {
    forall i | 0 <= i < |steps| ensures |states[i].disk| == g.disksize {
      assert Typed(g, states[i]);
    }
  }

  /** Recovering the disk of state k leaves on every home block what was last committed. */
  ghost predicate AtomicAt(g: Geometry, states: seq<State>, steps: seq<Step>, k: nat)
    requires g.Ok() && k < |states|
  {
    && Sized(g, states, steps) && HeadOk(g, states[k].disk)
    && forall b {:trigger g.Home(b)} | g.Home(b) :: Recovered(g, states[k].disk)[b] == Committed(g, states, steps, k, b)
  }

  /** Crash atomicity over whole runs. After any run, however many crashes
      interrupted commits and earlier recoveries, a recovery that finishes leaves
      on every home block the logical contents of the moment the last write_head
      reached the disk, or the initial disk if none has. */
  lemma CrashAtomicity(g: Geometry, states: seq<State>, steps: seq<Step>, k: nat)
    requires Roomy(g) && Run(g, states, steps) && k < |states|
    ensures AtomicAt(g, states, steps, k)
  {
    RunIsSized(g, states, steps);
    RunKeepsInv(g, states, steps, k);
    RecoversStable(g, states[k]);
    forall b | g.Home(b) ensures Recovered(g, states[k].disk)[b] == Committed(g, states, steps, k, b) {
      StableIsLastCommit(g, states, steps, k, b);
    }
  }

  lemma {:induction false} StableIsLastCommit(g: Geometry, states: seq<State>, steps: seq<Step>, k: nat, b: nat)
    requires Roomy(g) && Run(g, states, steps) && k < |states| && g.Home(b)
    ensures |states[k].stable| == g.disksize && Sized(g, states, steps)
    ensures states[k].stable[b] == Committed(g, states, steps, k, b)
  {
    RunIsSized(g, states, steps);
    if k > 0 {
      StableIsLastCommit(g, states, steps, k - 1, b);
      RunKeepsInv(g, states, steps, k - 1);
      PromiseMovesAtWriteHead(g, states[k - 1], steps[k - 1]);
    }
  }

  /** The position after the last of the first k steps that changed what block b reads
      as: its holder's own change, or the end of a recovery. 0 if there is none. */
  function LastSet(steps: seq<Step>, k: nat, b: nat): (c: nat)
    requires k <= |steps|
    ensures c <= k
  {
    if k == 0 then 0
    else if (steps[k - 1].Modify? && steps[k - 1].b == b) || steps[k - 1].RecoverErase? then k
    else LastSet(steps, k - 1, b)
  }

  /** A step that does not end a recovery changes the reading of its holder's block only. */
  lemma StepReads(g: Geometry, s: State, step: Step, b: nat)
    requires Inv(g, s) && Enabled(g, s, step) && !step.RecoverErase? && g.Home(b)
    requires !Apply(g, s, step).phase.Recovering?
    ensures !s.phase.Recovering? && |Apply(g, s, step).disk| == g.disksize
    ensures Logical(Apply(g, s, step), b) == if step.Modify? && step.b == b then step.data else Logical(s, b)
  {
    assert !s.phase.Recovering? by {
      if s.phase.Recovering? { StaysRecovering(g, s, step); }
    }
    StepIsTransparent(g, s, step);
  }

  lemma StaysRecovering(g: Geometry, s: State, step: Step)
    requires Inv(g, s) && Enabled(g, s, step) && !step.RecoverErase? && s.phase.Recovering?
    ensures Apply(g, s, step).phase.Recovering?
  {
  }

  /** Transparency over whole runs: outside a recovery a home block reads as its last
      holder left it since the last recovery ended, else as what that recovery found
      committed, else as the initial disk; whatever has been evicted, filled, logged,
      committed and installed in between. */
  lemma {:induction false} ReadsLastSet(g: Geometry, states: seq<State>, steps: seq<Step>, k: nat, b: nat)
    requires Roomy(g) && Run(g, states, steps) && k < |states| && !states[k].phase.Recovering? && g.Home(b)
    ensures |states[k].disk| == g.disksize && Sized(g, states, steps)
    ensures Logical(states[k], b) == ValueSet(g, states, steps, LastSet(steps, k, b), b)
  {
    RunIsSized(g, states, steps);
    if k > 0 {
      RunStepReads(g, states, steps, k - 1, b);
      if LastSet(steps, k, b) < k {
        ReadsLastSet(g, states, steps, k - 1, b);
      }
    }
  }

  lemma RunStepReads(g: Geometry, states: seq<State>, steps: seq<Step>, i: nat, b: nat)
    requires Roomy(g) && Run(g, states, steps) && i < |steps| && !states[i + 1].phase.Recovering? && g.Home(b)
    ensures |states[i + 1].disk| == g.disksize && Sized(g, states, steps)
    ensures LastSet(steps, i + 1, b) == i + 1 ==> Logical(states[i + 1], b) == ValueSet(g, states, steps, i + 1, b)
    ensures LastSet(steps, i + 1, b) <= i ==>
      !states[i].phase.Recovering? && |states[i].disk| == g.disksize &&
        Logical(states[i + 1], b) == Logical(states[i], b)
  {
    RunIsSized(g, states, steps);
    RunStep(g, states, steps, i);
    if steps[i].RecoverErase? {
      FinishedRecoveryReads(g, states[i], b);
      StableIsLastCommit(g, states, steps, i, b);
    } else {
      StepReads(g, states[i], steps[i], b);
    }
  }

  /** What the c-th step made block b read as, when it was a change of the block or the end of a recovery. */
  function ValueSet(g: Geometry, states: seq<State>, steps: seq<Step>, c: nat, b: nat): Block
    requires Sized(g, states, steps) && c <= |steps| && b < g.disksize
  {
    if c == 0 then states[0].disk[b]
    else if steps[c - 1].Modify? then steps[c - 1].data
    else Committed(g, states, steps, c - 1, b)
  }

  lemma RunStep(g: Geometry, states: seq<State>, steps: seq<Step>, i: nat)
    requires Roomy(g) && Run(g, states, steps) && i < |steps|
    ensures Inv(g, states[i]) && Enabled(g, states[i], steps[i]) && states[i + 1] == Apply(g, states[i], steps[i])
  {
    RunKeepsInv(g, states, steps, i);
  }

  /** A finished recovery leaves the promised blocks in place: the first Running
      state after a crash reads, on every home block, what the last write_head promised. */
  lemma FinishedRecoveryReads(g: Geometry, s: State, b: nat)
    requires Inv(g, s) && Enabled(g, s, RecoverErase) && g.Home(b)
    ensures Logical(Apply(g, s, RecoverErase), b) == s.stable[b]
  {
    RecoverEraseKeepsInv(g, s);
  }
}
