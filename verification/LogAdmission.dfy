/** begin_op, log_write and end_op as steps of any number of processes under
    log.lock: how log space is reserved, who sleeps, and who wakes them. log_write
    tests the length of the log before it takes the lock, so its test and its
    append are two steps. */
module LogAdmission {
  import opened Blocks
  import opened LogSpec
  import opened Params
  import opened Sums

  /** Where a process stands: outside an operation, at the top of begin_op's loop,
      asleep in it, inside an operation that may add some more blocks to the log,
      inside log_write past its test but not yet under the lock, or in commit. */
  datatype Proc = Idle | Trying | Asleep | InOp(left: nat) | Adding(left: nat, b: nat) | Commits

  datatype State = State(procs: seq<Proc>, lh: seq<nat>, outstanding: int, committing: bool)

  datatype Step =
    | Call(p: nat)
    | Try(p: nat)
    | Check(p: nat, b: nat)
    | Append(p: nat)
    | End(p: nat)
    | CommitDone(p: nat)

  function Initial(n: nat): State {
    State(seq(n, i => Idle), [], 0, false)
  }

  /** begin_op must wait: a commit is running, or this operation might exhaust the log. */
  predicate MustWait(s: State) {
    s.committing || |s.lh| + (s.outstanding + 1) * MAXOPBLOCKS > LOGSIZE
  }

  /** log_write's first test. */
  predicate TooBig(size: nat, s: State) {
    |s.lh| >= LOGSIZE || |s.lh| >= size - 1
  }

  /** Below this many blocks log_write's test passes. */
  function Room(size: nat): nat {
    if size > LOGSIZE then LOGSIZE else if size == 0 then 0 else size - 1
  }

  function WakeAll(procs: seq<Proc>): (r: seq<Proc>)
    ensures |r| == |procs|
    ensures forall i | 0 <= i < |procs| :: r[i] == if procs[i].Asleep? then Trying else procs[i]
  {
    seq(|procs|, i requires 0 <= i < |procs| => if procs[i].Asleep? then Trying else procs[i])
  }

  /** log_write of b is within its operation's budget: it adds a block the operation
      may still add, or the log holds the block already. */
  predicate Within(at: Proc, lh: seq<nat>, b: nat) {
    at.InOp? && (at.left > 0 || b in lh)
  }

  function Added(lh: seq<nat>, b: nat): seq<nat> {
    if b in lh then lh else lh + [b]
  }

  /** One atomic step of operations that add at most most blocks each to the log;
      None when it is not the process's next step or it panics. */
  function Next(size: nat, most: nat, s: State, step: Step): Option<State> {
    if step.p >= |s.procs| then None else
      var at := s.procs[step.p];
      match step
      case Call(p) => if at.Idle? then Some(s.(procs := s.procs[p := Trying])) else None
      case Try(p) =>
        if !at.Trying? then None
        else if MustWait(s) then Some(s.(procs := s.procs[p := Asleep]))
        else Some(s.(procs := s.procs[p := InOp(most)], outstanding := s.outstanding + 1))
      case Check(p, b) =>
        if !Within(at, s.lh, b) || TooBig(size, s) || s.outstanding < 1 then None
        else Some(s.(procs := s.procs[p := Adding(at.left, b)]))
      case Append(p) =>
        if !at.Adding? then None
        else
          var left := if at.b in s.lh || at.left == 0 then at.left else at.left - 1;
          Some(s.(procs := s.procs[p := InOp(left)], lh := Added(s.lh, at.b)))
      case End(p) =>
        if !at.InOp? || s.committing then None
        else if s.outstanding == 1 then Some(s.(procs := s.procs[p := Commits], outstanding := 0, committing := true))
        else Some(s.(procs := WakeAll(s.procs[p := Idle]), outstanding := s.outstanding - 1))
      case CommitDone(p) =>
        if !at.Commits? then None
        else Some(s.(procs := WakeAll(s.procs[p := Idle]), lh := [], committing := false))
  }

  // ----- the invariant -----

  function Budget(p: Proc): int { if p.InOp? || p.Adding? then p.left else 0 }
  function Active(p: Proc): int { if p.InOp? || p.Adding? then 1 else 0 }
  function Committer(p: Proc): int { if p.Commits? then 1 else 0 }

  predicate ProcOk(most: nat, lh: seq<nat>, p: Proc) {
    Budget(p) <= most && (p.Adding? ==> p.left > 0 || p.b in lh)
  }

  ghost predicate Inv(most: nat, s: State) {
    && s.outstanding == Sum(Active, s.procs)
    && Sum(Committer, s.procs) == (if s.committing then 1 else 0)
    && (s.committing ==> s.outstanding == 0)
    && (most <= MAXOPBLOCKS ==> |s.lh| + Sum(Budget, s.procs) <= LOGSIZE)
    && (|s.procs| == 1 ==> |s.lh| + Sum(Budget, s.procs) <= most || s.committing)
    && (forall i | 0 <= i < |s.procs| :: ProcOk(most, s.lh, s.procs[i]))
    && Distinct(s.lh)
    && (s.outstanding == 0 && !s.committing ==> s.lh == [])
    && ((exists i :: 0 <= i < |s.procs| && s.procs[i].Asleep?) ==> s.committing || s.outstanding > 0)
  }

  lemma SumsAfter(procs: seq<Proc>, p: nat, q: Proc)
    requires p < |procs|
    ensures Sum(Active, procs[p := q]) == Sum(Active, procs) - Active(procs[p]) + Active(q)
    ensures Sum(Committer, procs[p := q]) == Sum(Committer, procs) - Committer(procs[p]) + Committer(q)
    ensures Sum(Budget, procs[p := q]) == Sum(Budget, procs) - Budget(procs[p]) + Budget(q)
    ensures Sum(Active, procs) >= Active(procs[p]) && Sum(Committer, procs) >= Committer(procs[p])
    ensures Sum(Budget, procs) >= Budget(procs[p])
  {
    SumUpdate(Active, procs, p, q);
    SumUpdate(Committer, procs, p, q);
    SumUpdate(Budget, procs, p, q);
    SumAtLeast(Active, procs, p);
    SumAtLeast(Committer, procs, p);
    SumAtLeast(Budget, procs, p);
  }

  lemma SumsAfterWake(procs: seq<Proc>)
    ensures Sum(Active, WakeAll(procs)) == Sum(Active, procs)
    ensures Sum(Committer, WakeAll(procs)) == Sum(Committer, procs)
    ensures Sum(Budget, WakeAll(procs)) == Sum(Budget, procs)
  {
    SumSame(Active, Active, WakeAll(procs), procs);
    SumSame(Committer, Committer, WakeAll(procs), procs);
    SumSame(Budget, Budget, WakeAll(procs), procs);
  }

  /** Reserved space: each outstanding operation's budget is at most MAXOPBLOCKS. */
  lemma {:induction false} BudgetBound(procs: seq<Proc>)
    requires forall i | 0 <= i < |procs| :: Budget(procs[i]) <= MAXOPBLOCKS
    ensures Sum(Budget, procs) <= MAXOPBLOCKS * Sum(Active, procs)
  {
    if procs != [] {
      BudgetBound(procs[1..]);
    }
  }

  lemma StepKeepsInv(size: nat, most: nat, s: State, step: Step)
    requires Inv(most, s) && Next(size, most, s, step).Some?
    ensures Inv(most, Next(size, most, s, step).value)
  {
    var p := step.p;
    match step
    case Call(_) => SumsAfter(s.procs, p, Trying);
    case Try(_) => TryKeepsInv(size, most, s, p);
    case Check(_, b) => SumsAfter(s.procs, p, Adding(s.procs[p].left, b));
    case Append(_) => AppendKeepsInv(size, most, s, p);
    case End(_) => EndKeepsInv(size, most, s, p);
    case CommitDone(_) =>
      SumsAfter(s.procs, p, Idle);
      SumsAfterWake(s.procs[p := Idle]);
      OneCommitter(s, p);
  }

  lemma TryKeepsInv(size: nat, most: nat, s: State, p: nat)
    requires Inv(most, s) && Next(size, most, s, Try(p)).Some?
    ensures Inv(most, Next(size, most, s, Try(p)).value)
  {
    SumsAfter(s.procs, p, Asleep);
    SumsAfter(s.procs, p, InOp(most));
    if most <= MAXOPBLOCKS {
      BudgetBound(s.procs);
    }
  }

  lemma AppendKeepsInv(size: nat, most: nat, s: State, p: nat)
    requires Inv(most, s) && Next(size, most, s, Append(p)).Some?
    ensures Inv(most, Next(size, most, s, Append(p)).value)
  {
    assert ProcOk(most, s.lh, s.procs[p]);
    var t := Next(size, most, s, Append(p)).value;
    SumsAfter(s.procs, p, t.procs[p]);
    forall i | 0 <= i < |t.procs| ensures ProcOk(most, t.lh, t.procs[i]) {
      assert ProcOk(most, s.lh, s.procs[i]);
    }
  }

  lemma EndKeepsInv(size: nat, most: nat, s: State, p: nat)
    requires Inv(most, s) && Next(size, most, s, End(p)).Some?
    ensures Inv(most, Next(size, most, s, End(p)).value)
  {
    SumsAfter(s.procs, p, Commits);
    SumsAfter(s.procs, p, Idle);
    SumsAfterWake(s.procs[p := Idle]);
    var t := Next(size, most, s, End(p)).value;
    forall i | 0 <= i < |t.procs| ensures ProcOk(most, t.lh, t.procs[i]) {
      assert ProcOk(most, s.lh, s.procs[i]);
    }
  }

  /** While a process commits no other is inside an operation. */
  lemma OneCommitter(s: State, p: nat)
    requires s.outstanding == Sum(Active, s.procs) && p < |s.procs| && s.procs[p].Commits?
    requires Sum(Committer, s.procs) == (if s.committing then 1 else 0) && (s.committing ==> s.outstanding == 0)
    ensures s.committing && forall i | 0 <= i < |s.procs| :: !s.procs[i].InOp? && !s.procs[i].Adding?
  {
    SumAtLeast(Committer, s.procs, p);
    forall i | 0 <= i < |s.procs| ensures !s.procs[i].InOp? && !s.procs[i].Adding? {
      SumAtLeast(Active, s.procs, i);
    }
  }

  // ----- runs -----

  function Exec(size: nat, most: nat, n: nat, steps: seq<Step>): Option<State> {
    if steps == [] then Some(Initial(n)) else
      match Exec(size, most, n, steps[..|steps| - 1])
      case None => None
      case Some(s) => Next(size, most, s, steps[|steps| - 1])
  }

  ghost predicate Reachable(size: nat, most: nat, n: nat, s: State) {
    exists steps :: Exec(size, most, n, steps) == Some(s)
  }

  lemma {:induction false} RunKeepsInv(size: nat, most: nat, n: nat, steps: seq<Step>)
    requires Exec(size, most, n, steps).Some?
    ensures Inv(most, Exec(size, most, n, steps).value) && |Exec(size, most, n, steps).value.procs| == n
  {
    if steps == [] {
      SumZero(Active, Initial(n).procs);
      SumZero(Committer, Initial(n).procs);
      SumZero(Budget, Initial(n).procs);
    } else {
      RunKeepsInv(size, most, n, steps[..|steps| - 1]);
      StepKeepsInv(size, most, Exec(size, most, n, steps[..|steps| - 1]).value, steps[|steps| - 1]);
    }
  }

  lemma ReachableInv(size: nat, most: nat, n: nat, s: State)
    requires Reachable(size, most, n, s)
    ensures Inv(most, s) && |s.procs| == n
  {
    var steps :| Exec(size, most, n, steps) == Some(s);
    RunKeepsInv(size, most, n, steps);
  }

  /** Log admission in every reachable state. */
  lemma Admission(size: nat, most: nat, n: nat, s: State)
    requires Reachable(size, most, n, s)
    ensures most <= MAXOPBLOCKS ==> |s.lh| + Sum(Budget, s.procs) <= LOGSIZE
    ensures Distinct(s.lh)
    ensures s.outstanding == Sum(Active, s.procs)
    ensures s.outstanding == 0 && !s.committing ==> s.lh == []
    ensures s.committing ==> s.outstanding == 0
  {
    ReachableInv(size, most, n, s);
  }

  // ----- sleepers -----

  predicate SomeoneAsleep(s: State) {
    exists i :: 0 <= i < |s.procs| && s.procs[i].Asleep?
  }

  /** A begin_op sleeper always waits on some process that will wake it: one is
      committing, whose end wakes everybody, or one is inside an operation, whose
      end_op, after the log_write it may be in, wakes everybody at once or makes
      it the committer. */
  lemma SleeperIsWoken(size: nat, most: nat, n: nat, s: State) returns (p: nat)
    requires Reachable(size, most, n, s) && SomeoneAsleep(s)
    ensures p < |s.procs|
    ensures s.committing ==> EndsSleep(size, most, s, CommitDone(p))
    ensures !s.committing && s.procs[p].Adding? ==>
      Next(size, most, s, Append(p)).Some? && OpEndsSleep(size, most, Next(size, most, s, Append(p)).value, p)
    ensures !s.committing && !s.procs[p].Adding? ==> OpEndsSleep(size, most, s, p)
  {
    ReachableInv(size, most, n, s);
    if s.committing {
      p := SumWitness(Committer, s.procs);
    } else {
      p := SumWitness(Active, s.procs);
    }
  }

  predicate EndsSleep(size: nat, most: nat, s: State, step: Step) {
    Next(size, most, s, step).Some? && !SomeoneAsleep(Next(size, most, s, step).value)
  }

  predicate OpEndsSleep(size: nat, most: nat, s: State, p: nat) {
    && Next(size, most, s, End(p)).Some?
    && var t := Next(size, most, s, End(p)).value;
      !SomeoneAsleep(t) || EndsSleep(size, most, t, CommitDone(p))
  }

  // ----- the run that fills the log -----

  function Clamp(x: int, hi: nat): nat {
    if x < 0 then 0 else if x > hi then hi else x
  }

  /** Process 0 is inside an operation while others have come and gone and logged blocks 0 .. j-1. */
  function Comings(n: nat, most: nat, j: nat): State {
    State(seq(n, i => if i == 0 then InOp(most) else Idle), seq(j, i => i), 1, false)
  }

  /** Processes 0 and 1 are inside operations with j blocks logged, of which they have
      added the later ones: nine by process 0, ten by process 1, one by process 0. */
  function Filling(n: nat, most: nat, j: nat): State
    requires most >= MAXOPBLOCKS && j <= LOGSIZE
  {
    var first := Clamp(j - 10, 9) + Clamp(j - 29, 1);
    var second := Clamp(j - 19, 10);
    State(
      seq(n, i => if i == 0 then InOp(most - first) else if i == 1 then InOp(most - second) else Idle),
      seq(j, i => i), 2, false)
  }

  lemma Extend(size: nat, most: nat, n: nat, s: State, step: Step)
    requires Reachable(size, most, n, s) && Next(size, most, s, step).Some?
    ensures Reachable(size, most, n, Next(size, most, s, step).value)
  {
    var steps :| Exec(size, most, n, steps) == Some(s);
    assert (steps + [step])[..|steps|] == steps;
    assert Exec(size, most, n, steps + [step]) == Next(size, most, s, step);
  }

  lemma JoinReachable(size: nat, most: nat, n: nat, s: State, p: nat)
    requires Reachable(size, most, n, s) && p < |s.procs| && s.procs[p].Idle? && !MustWait(s)
    ensures Reachable(size, most, n, s.(procs := s.procs[p := InOp(most)], outstanding := s.outstanding + 1))
  {
    Extend(size, most, n, s, Call(p));
    var t := s.(procs := s.procs[p := Trying]);
    Extend(size, most, n, t, Try(p));
    assert t.procs[p := InOp(most)] == s.procs[p := InOp(most)];
  }

  lemma CheckReachable(size: nat, most: nat, n: nat, s: State, p: nat, b: nat)
    requires Reachable(size, most, n, s) && p < |s.procs| && Within(s.procs[p], s.lh, b)
    requires !TooBig(size, s) && s.outstanding >= 1
    ensures Reachable(size, most, n, s.(procs := s.procs[p := Adding(s.procs[p].left, b)]))
  {
    Extend(size, most, n, s, Check(p, b));
  }

  lemma AppendReachable(size: nat, most: nat, n: nat, s: State, p: nat, left: nat, b: nat)
    requires Reachable(size, most, n, s) && p < |s.procs| && s.procs[p] == Adding(left, b) && left > 0 && b !in s.lh
    ensures Reachable(size, most, n, s.(procs := s.procs[p := InOp(left - 1)], lh := s.lh + [b]))
  {
    Extend(size, most, n, s, Append(p));
  }

  /** One call of log_write that nobody comes between. */
  lemma LogReachable(size: nat, most: nat, n: nat, s: State, p: nat, left: nat, b: nat)
    requires Reachable(size, most, n, s) && p < |s.procs| && s.procs[p] == InOp(left) && left > 0
    requires b !in s.lh && !TooBig(size, s) && s.outstanding >= 1
    ensures Reachable(size, most, n, s.(procs := s.procs[p := InOp(left - 1)], lh := s.lh + [b]))
  {
    CheckReachable(size, most, n, s, p, b);
    var t := s.(procs := s.procs[p := Adding(left, b)]);
    AppendReachable(size, most, n, t, p, left, b);
    assert t.procs[p := InOp(left - 1)] == s.procs[p := InOp(left - 1)];
  }

  lemma {:induction false} ComingsReachable(size: nat, most: nat, n: nat, j: nat)
    requires n > 0 && most > 0 && j <= 10 && j <= Room(size) && (j > 0 ==> n > 1)
    ensures Reachable(size, most, n, Comings(n, most, j))
  {
    if j == 0 {
      assert Exec(size, most, n, []) == Some(Initial(n));
      JoinReachable(size, most, n, Initial(n), 0);
      assert Initial(n).procs[0 := InOp(most)] == Comings(n, most, 0).procs;
      assert Initial(n).(procs := Comings(n, most, 0).procs, outstanding := 1) == Comings(n, most, 0);
    } else {
      ComingsReachable(size, most, n, j - 1);
      OneComes(size, most, n, j);
    }
  }

  /** Process 1 begins, logs one block and ends. */
  lemma OneComes(size: nat, most: nat, n: nat, j: nat)
    requires n > 1 && most > 0 && 0 < j <= 10 && j <= Room(size)
    requires Reachable(size, most, n, Comings(n, most, j - 1))
    ensures Reachable(size, most, n, Comings(n, most, j))
  {
    var s := Comings(n, most, j - 1);
    JoinReachable(size, most, n, s, 1);
    var t := s.(procs := s.procs[1 := InOp(most)], outstanding := 2);
    LogReachable(size, most, n, t, 1, most, j - 1);
    var u := t.(procs := t.procs[1 := InOp(most - 1)], lh := t.lh + [j - 1]);
    Extend(size, most, n, u, End(1));
    assert WakeAll(u.procs[1 := Idle]) == Comings(n, most, j).procs;
    assert u.lh == Comings(n, most, j).lh;
  }

  lemma {:induction false} FillingReachable(size: nat, most: nat, n: nat, j: nat)
    requires n > 1 && most >= MAXOPBLOCKS && j <= LOGSIZE && j <= Room(size)
    ensures Reachable(size, most, n, Filling(n, most, j))
  {
    if j <= 10 {
      ComingsReachable(size, most, n, j);
      var s := Comings(n, most, j);
      JoinReachable(size, most, n, s, 1);
      assert s.procs[1 := InOp(most)] == Filling(n, most, j).procs;
      assert s.(procs := Filling(n, most, j).procs, outstanding := 2) == Filling(n, most, j);
    } else {
      FillingReachable(size, most, n, j - 1);
      FillingStep(size, most, n, j);
    }
  }

  lemma FillingStep(size: nat, most: nat, n: nat, j: nat)
    requires n > 1 && most >= MAXOPBLOCKS && 10 < j <= LOGSIZE && j <= Room(size)
    requires Reachable(size, most, n, Filling(n, most, j - 1))
    ensures Reachable(size, most, n, Filling(n, most, j))
  {
    var s, t := Filling(n, most, j - 1), Filling(n, most, j);
    var p := if 20 <= j <= 29 then 1 else 0;
    var left := s.procs[p].left;
    assert s.procs[p := InOp(left - 1)] == t.procs;
    assert s.lh + [j - 1] == t.lh;
    LogReachable(size, most, n, s, p, left, j - 1);
  }

  // ----- when log_write overruns the log -----

  /** The logged blocks fit the log: write_log stays inside it. */
  ghost predicate AlwaysFits(size: nat) {
    forall n: nat, s: State :: Reachable(size, MAXOPBLOCKS, n, s) ==> |s.lh| <= size - 1
  }

  /** Operations within their budget keep the logged blocks inside the log exactly
      when it has more than LOGSIZE blocks, or has no room for even one: in between,
      two processes can pass the test for the one place left. */
  lemma AlwaysFitsExactly(size: nat)
    ensures AlwaysFits(size) <==> size > LOGSIZE || size == 1
  {
    if size > LOGSIZE || size == 1 {
      forall n: nat, s: State | Reachable(size, MAXOPBLOCKS, n, s) ensures |s.lh| <= size - 1 {
        ReachableInv(size, MAXOPBLOCKS, n, s);
        SumNonNegative(Budget, s.procs);
        if size == 1 {
          NothingFits(MAXOPBLOCKS, n, s);
        }
      }
    } else if size == 0 {
      ComingsReachable(0, MAXOPBLOCKS, 1, 0);
      assert |Comings(1, MAXOPBLOCKS, 0).lh| > -1;
    } else {
      var s := Overrun(size);
    }
  }

  /** The run: with one place left processes 0 and 1 both pass the test, then both append. */
  lemma Overrun(size: nat) returns (s: State)
    requires 2 <= size <= LOGSIZE
    ensures Reachable(size, MAXOPBLOCKS, 2, s) && |s.lh| == size
  {
    var j := size - 2;
    FillingReachable(size, MAXOPBLOCKS, 2, j);
    s := Filling(2, MAXOPBLOCKS, j);
    var left0, left1 := s.procs[0].left, s.procs[1].left;
    CheckReachable(size, MAXOPBLOCKS, 2, s, 0, j);
    s := s.(procs := s.procs[0 := Adding(left0, j)]);
    CheckReachable(size, MAXOPBLOCKS, 2, s, 1, j + 1);
    s := s.(procs := s.procs[1 := Adding(left1, j + 1)]);
    AppendReachable(size, MAXOPBLOCKS, 2, s, 0, left0, j);
    s := s.(procs := s.procs[0 := InOp(left0 - 1)], lh := s.lh + [j]);
    AppendReachable(size, MAXOPBLOCKS, 2, s, 1, left1, j + 1);
    s := s.(procs := s.procs[1 := InOp(left1 - 1)], lh := s.lh + [j + 1]);
  }

  /** In a log of one block the test never passes. */
  lemma NothingFits(most: nat, n: nat, s: State)
    requires Reachable(1, most, n, s)
    ensures s.lh == []
  {
    var steps :| Exec(1, most, n, steps) == Some(s);
    NothingAdded(most, n, steps);
  }

  lemma {:induction false} NothingAdded(most: nat, n: nat, steps: seq<Step>)
    requires Exec(1, most, n, steps).Some?
    ensures var s := Exec(1, most, n, steps).value;
      s.lh == [] && forall i | 0 <= i < |s.procs| :: !s.procs[i].Adding?
  {
    if steps != [] {
      NothingAdded(most, n, steps[..|steps| - 1]);
    }
  }

  // ----- when log_write panics -----

  /** Some process may call log_write here and hit "too big a transaction": with a
      block its budget still covers or, when operations log blocks again, with any
      block of the log. */
  predicate CanPanic(size: nat, s: State, again: bool) {
    exists p :: 0 <= p < |s.procs| && s.procs[p].InOp? && TooBig(size, s) &&
      (s.procs[p].left > 0 || (again && s.lh != []))
  }

  ghost predicate NeverPanics(size: nat, most: nat, n: nat, again: bool) {
    forall s: State :: Reachable(size, most, n, s) ==> !CanPanic(size, s, again)
  }

  lemma CallPanics(size: nat, most: nat, n: nat, s: State, again: bool)
    requires Reachable(size, most, n, s) && CanPanic(size, s, again)
    ensures !NeverPanics(size, most, n, again)
  {
  }

  /** The log is large enough for every admitted operation that logs each of its
      blocks once exactly when it has more than LOGSIZE blocks; mkfs makes it
      LOGSIZE blocks, one too few. */
  lemma NoPanicExactly(size: nat)
    ensures (forall n: nat :: NeverPanics(size, MAXOPBLOCKS, n, false)) <==> size > LOGSIZE
  {
    if size > LOGSIZE {
      forall n: nat, s: State | Reachable(size, MAXOPBLOCKS, n, s) ensures !CanPanic(size, s, false) {
        ReachableInv(size, MAXOPBLOCKS, n, s);
        forall p | 0 <= p < |s.procs| && s.procs[p].InOp? && s.procs[p].left > 0 ensures !TooBig(size, s) {
          SumAtLeast(Budget, s.procs, p);
        }
      }
    } else {
      FullPanics(size, MAXOPBLOCKS, 2, false);
    }
  }

  /** No size makes the log large enough for operations that log a block again: the
      test comes before the search for the block. */
  lemma AgainPanics(size: nat)
    ensures !NeverPanics(size, MAXOPBLOCKS, 2, true)
  {
    FullPanics(size, MAXOPBLOCKS, 2, true);
  }

  lemma FullPanics(size: nat, most: nat, n: nat, again: bool)
    requires n > 1 && most >= MAXOPBLOCKS
    requires size > LOGSIZE ==> most > MAXOPBLOCKS || again
    ensures !NeverPanics(size, most, n, again)
  {
    var j := Room(size);
    FillingReachable(size, most, n, j);
    var s := Filling(n, most, j);
    assert s.procs[0].InOp? && TooBig(size, s);
    CallPanics(size, most, n, s, again);
  }

  /** Operations that add more than MAXOPBLOCKS blocks, as a write that spans several
      bitmap blocks does: the panic is out of reach exactly when there is one such
      process at most and its blocks fit the log, with one place to spare if it
      logs some of them again. */
  lemma LargeWritersExactly(size: nat, most: nat, n: nat, again: bool)
    requires most > MAXOPBLOCKS
    ensures NeverPanics(size, most, n, again) <==>
      n == 0 || (n == 1 && if again then most < Room(size) else most <= Room(size))
  {
    if n == 0 {
      forall s | Reachable(size, most, n, s) ensures !CanPanic(size, s, again) {
        ReachableInv(size, most, n, s);
      }
    } else if n > 1 {
      FullPanics(size, most, n, again);
    } else if (if again then most < Room(size) else most <= Room(size)) {
      forall s | Reachable(size, most, n, s) ensures !CanPanic(size, s, again) {
        OneWriterFits(size, most, s, again);
      }
    } else {
      OneWriterPanics(size, most, again);
    }
  }

  lemma OneWriterFits(size: nat, most: nat, s: State, again: bool)
    requires Reachable(size, most, 1, s) && if again then most < Room(size) else most <= Room(size)
    ensures !CanPanic(size, s, again)
  {
    ReachableInv(size, most, 1, s);
    assert s.procs[0].InOp? ==> !s.committing by { SumAtLeast(Active, s.procs, 0); }
    SumAtLeast(Budget, s.procs, 0);
  }

  function Alone(most: nat, j: nat): State
    requires j <= most
  {
    State([InOp(most - j)], seq(j, i => i), 1, false)
  }

  lemma {:induction false} AloneReachable(size: nat, most: nat, j: nat)
    requires 0 < most && j <= most && j <= Room(size)
    ensures Reachable(size, most, 1, Alone(most, j))
  {
    if j == 0 {
      ComingsReachable(size, most, 1, 0);
      assert Comings(1, most, 0).procs == [InOp(most)];
    } else {
      AloneReachable(size, most, j - 1);
      LogReachable(size, most, 1, Alone(most, j - 1), 0, most - (j - 1), j - 1);
      assert Alone(most, j - 1).procs[0 := InOp(most - j)] == Alone(most, j).procs;
      assert Alone(most, j - 1).lh + [j - 1] == Alone(most, j).lh;
    }
  }

  lemma OneWriterPanics(size: nat, most: nat, again: bool)
    requires most > MAXOPBLOCKS && if again then most >= Room(size) else most > Room(size)
    ensures !NeverPanics(size, most, 1, again)
  {
    var j := Room(size);
    AloneReachable(size, most, j);
    var s := Alone(most, j);
    assert s.procs[0].InOp? && TooBig(size, s);
    CallPanics(size, most, 1, s, again);
  }
}
