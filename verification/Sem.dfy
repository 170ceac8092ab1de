/** One semaphore of sem.c used by any number of processes, at the grain of its lock
    (sslock) and of the sleep/wakeup mechanism of proc.c under ptable.lock. */
module Sem {
  import opened Blocks

  /** A call in progress. SetCount and SetMax are the two critical sections of sem_reset. */
  datatype Op = Wait | TryWait | Post | SetCount(val: int, max: int) | SetMax(max: int)

  /** Where a process stands. Sleep and wakeup are spelled out lock by lock:
      Acquire waits for sslock; Body and the states up to Leave hold it; SleepAcquire
      waits for ptable.lock, SleepRelease holds both locks, SleepSet only ptable.lock;
      WakeAcquire and WakeRun are wakeup(s) called with sslock held. */
  datatype Proc =
    | Idle
    | Acquire(op: Op)
    | Body(op: Op)
    | WakeAcquire(op: Op)
    | WakeRun(op: Op)
    | Leave(op: Op)
    | SleepAcquire
    | SleepRelease
    | SleepSet
    | Asleep
    | Runnable
    | Resumed

  /** accepted and taken count posts and successful waits; wasReset says a reset ran. */
  datatype State = State(
    procs: seq<Proc>,
    killed: set<nat>,
    sslock: Option<nat>,
    ptlock: Option<nat>,
    count: int,
    maxVal: int,
    accepted: int,
    taken: int,
    wasReset: bool)

  datatype Step = Call(p: nat, op: Op) | Advance(p: nat) | Kill(p: nat)

  function Initial(n: nat, init: int, maxVal: int): State {
    State(seq(n, i => Idle), {}, None, None, init, maxVal, 0, 0, false)
  }

  function WakeAll(procs: seq<Proc>): (r: seq<Proc>)
    ensures |r| == |procs|
    ensures forall i | 0 <= i < |procs| :: r[i] == if procs[i].Asleep? then Runnable else procs[i]
  {
    seq(|procs|, i requires 0 <= i < |procs| => if procs[i].Asleep? then Runnable else procs[i])
  }

  /** sem_reset's refusals; SetCount stands for the call with newVal >= 0. */
  predicate CallOk(s: State, op: Op) {
    match op
    case SetCount(val, max) => val >= 0 && !(max >= 0 && max < s.maxVal)
    case SetMax(max) => max >= s.maxVal && max >= 0
    case _ => true
  }

  /** The critical section of op, run by p with sslock held. */
  function RunBody(s: State, p: nat, op: Op): State
    requires p < |s.procs|
  {
    match op
    case Wait =>
      if s.count > 0 then s.(count := s.count - 1, taken := s.taken + 1, procs := s.procs[p := Leave(op)])
      else if p in s.killed then s.(procs := s.procs[p := Leave(op)])
      else s.(procs := s.procs[p := SleepAcquire])
    case TryWait =>
      if s.count > 0 then s.(count := s.count - 1, taken := s.taken + 1, procs := s.procs[p := Leave(op)])
      else s.(procs := s.procs[p := Leave(op)])
    case Post =>
      if s.count == s.maxVal then s.(procs := s.procs[p := Leave(op)])
      else s.(count := s.count + 1, accepted := s.accepted + 1,
              procs := s.procs[p := if s.count + 1 == 1 then WakeAcquire(op) else Leave(op)])
    case SetCount(val, _) =>
      s.(count := val, wasReset := true,
        procs := s.procs[p := if val > 0 && s.count == 0 then WakeAcquire(op) else Leave(op)])
    case SetMax(max) =>
      s.(maxVal := max, wasReset := true, procs := s.procs[p := Leave(op)])
  }

  /** What follows a critical section: sem_reset may go on to raise maxVal. */
  function After(s: State, op: Op): Proc {
    if op.SetCount? && op.max > s.maxVal then Acquire(SetMax(op.max)) else Idle
  }

  /** One step; None when it has to wait for a lock, for a wakeup, or for the caller. */
  function Next(s: State, step: Step): Option<State> {
    if step.p >= |s.procs| then None else
      var p := step.p;
      match step
      case Call(_, op) =>
        if s.procs[p].Idle? && CallOk(s, op) then Some(s.(procs := s.procs[p := Acquire(op)])) else None
      case Kill(_) =>
        if s.ptlock.Some? then None
        else Some(s.(killed := s.killed + {p},
          procs := s.procs[p := if s.procs[p].Asleep? then Runnable else s.procs[p]]))
      case Advance(_) =>
        match s.procs[p]
        case Idle => None
        case Acquire(op) =>
          if s.sslock.Some? then None else Some(s.(sslock := Some(p), procs := s.procs[p := Body(op)]))
        case Body(op) => Some(RunBody(s, p, op))
        case WakeAcquire(op) =>
          if s.ptlock.Some? then None else Some(s.(ptlock := Some(p), procs := s.procs[p := WakeRun(op)]))
        case WakeRun(op) => Some(s.(ptlock := None, procs := WakeAll(s.procs)[p := Leave(op)]))
        case Leave(op) => Some(s.(sslock := None, procs := s.procs[p := After(s, op)]))
        case SleepAcquire =>
          if s.ptlock.Some? then None else Some(s.(ptlock := Some(p), procs := s.procs[p := SleepRelease]))
        case SleepRelease => Some(s.(sslock := None, procs := s.procs[p := SleepSet]))
        case SleepSet => Some(s.(ptlock := None, procs := s.procs[p := Asleep]))
        case Asleep => None
        case Runnable => if s.ptlock.Some? then None else Some(s.(ptlock := Some(p), procs := s.procs[p := Resumed]))
        case Resumed => Some(s.(ptlock := None, procs := s.procs[p := Acquire(Wait)]))
  }

  // ----- the invariant -----

  predicate HoldsSs(q: Proc) {
    q.Body? || q.WakeAcquire? || q.WakeRun? || q.Leave? || q.SleepAcquire? || q.SleepRelease?
  }

  predicate HoldsPt(q: Proc) {
    q.WakeRun? || q.SleepRelease? || q.SleepSet? || q.Resumed?
  }

  /** The process found count not positive and is on its way to sleep, or asleep. */
  predicate Sleepy(q: Proc) {
    q.SleepAcquire? || q.SleepRelease? || q.SleepSet? || q.Asleep?
  }

  predicate Waking(q: Proc) {
    q.WakeAcquire? || q.WakeRun?
  }

  predicate LocksOk(s: State) {
    && (s.sslock.Some? ==> s.sslock.value < |s.procs|) && (s.ptlock.Some? ==> s.ptlock.value < |s.procs|)
    && forall p | 0 <= p < |s.procs| ::
         (HoldsSs(s.procs[p]) <==> s.sslock == Some(p)) && (HoldsPt(s.procs[p]) <==> s.ptlock == Some(p))
  }

  predicate WakeupPending(s: State) {
    s.sslock.Some? && s.sslock.value < |s.procs| && Waking(s.procs[s.sslock.value])
  }

  predicate SleepOk(s: State) {
    forall p | 0 <= p < |s.procs| && Sleepy(s.procs[p]) :: s.count == 0 || WakeupPending(s)
  }

  /** A pending sem_reset has passed its test on newVal. */
  predicate OpOk(q: Proc) {
    (q.Acquire? || q.Body?) && q.op.SetCount? ==> q.op.val >= 0
  }

  predicate Inv(s: State) {
    LocksOk(s) && SleepOk(s) && s.count >= 0 && forall p | 0 <= p < |s.procs| :: OpOk(s.procs[p])
  }

  /** Only process p's standing changes, and the locks follow it. */
  lemma LocksFollow(s: State, t: State, p: nat)
    requires LocksOk(s) && |t.procs| == |s.procs| && p < |s.procs|
    requires forall q | 0 <= q < |s.procs| && q != p ::
      t.procs[q] == s.procs[q] || (s.procs[q].Asleep? && t.procs[q].Runnable?)
    requires t.sslock == if HoldsSs(t.procs[p]) then Some(p) else if HoldsSs(s.procs[p]) then None else s.sslock
    requires t.ptlock == if HoldsPt(t.procs[p]) then Some(p) else if HoldsPt(s.procs[p]) then None else s.ptlock
    requires HoldsSs(t.procs[p]) && !HoldsSs(s.procs[p]) ==> s.sslock == None
    requires HoldsPt(t.procs[p]) && !HoldsPt(s.procs[p]) ==> s.ptlock == None
    ensures LocksOk(t)
  {
  }

  lemma StepKeepsLocks(s: State, step: Step)
    requires LocksOk(s) && Next(s, step).Some?
    ensures LocksOk(Next(s, step).value)
  {
    LocksFollow(s, Next(s, step).value, step.p);
  }

  lemma AtLocks(s: State, p: nat)
    requires LocksOk(s) && p < |s.procs|
    ensures (HoldsSs(s.procs[p]) <==> s.sslock == Some(p)) && (HoldsPt(s.procs[p]) <==> s.ptlock == Some(p))
  {
  }

  lemma StepKeepsInv(s: State, step: Step)
    requires Inv(s) && Next(s, step).Some?
    ensures Inv(Next(s, step).value)
  {
    hide LocksOk, Sleepy, WakeupPending;
    StepKeepsLocks(s, step);
    StepKeepsOps(s, step);
    var t := Next(s, step).value;
    assert OpOk(s.procs[step.p]) && |t.procs| == |s.procs|;
    forall q | 0 <= q < |t.procs| && Sleepy(t.procs[q]) ensures t.count == 0 || WakeupPending(t) {
      StaysSleepy(s, step, q);
    }
  }

  lemma StepKeepsOps(s: State, step: Step)
    requires s.count >= 0 && (forall p | 0 <= p < |s.procs| :: OpOk(s.procs[p])) && Next(s, step).Some?
    ensures var t := Next(s, step).value; t.count >= 0 && forall p | 0 <= p < |t.procs| :: OpOk(t.procs[p])
  {
  }

  /** Whoever sleeps after a step found the count at 0, or a wakeup is coming. */
  lemma StaysSleepy(s: State, step: Step, q: nat)
    requires LocksOk(s) && SleepOk(s) && s.count >= 0 && step.p < |s.procs| && OpOk(s.procs[step.p])
    requires Next(s, step).Some? && q < |s.procs| == |Next(s, step).value.procs| && Sleepy(Next(s, step).value.procs[q])
    ensures Next(s, step).value.count == 0 || WakeupPending(Next(s, step).value)
  {
    hide LocksOk;
    AtLocks(s, q);
    AtLocks(s, step.p);
  }

  // ----- runs -----

  function Exec(s: State, steps: seq<Step>): Option<State> {
    if steps == [] then Some(s) else
      match Exec(s, steps[..|steps| - 1])
      case None => None
      case Some(t) => Next(t, steps[|steps| - 1])
  }

  ghost predicate Reachable(n: nat, init: int, maxVal: int, s: State) {
    exists steps :: Exec(Initial(n, init, maxVal), steps) == Some(s)
  }

  lemma {:induction false} RunKeepsInv(s: State, steps: seq<Step>)
    requires Inv(s) && Exec(s, steps).Some?
    ensures Inv(Exec(s, steps).value)
  {
    if steps != [] {
      RunKeepsInv(s, steps[..|steps| - 1]);
      StepKeepsInv(Exec(s, steps[..|steps| - 1]).value, steps[|steps| - 1]);
    }
  }

  /** A wakeup was lost: sslock is free, the count is not zero, and yet someone sleeps. */
  predicate Lost(s: State) {
    s.sslock == None && s.count > 0 && exists p :: 0 <= p < |s.procs| && s.procs[p].Asleep?
  }

  /** No lost wakeup, for any number of processes and any mix of calls and kills,
      although sem_post and sem_reset wake only when the count leaves 0. */
  lemma NoLostWakeup(n: nat, init: int, maxVal: int, s: State)
    requires init >= 0 && Reachable(n, init, maxVal, s)
    ensures s.count >= 0
    ensures s.sslock == None ==> forall p | 0 <= p < |s.procs| && s.procs[p].Asleep? :: s.count == 0
  {
    var steps :| Exec(Initial(n, init, maxVal), steps) == Some(s);
    RunKeepsInv(Initial(n, init, maxVal), steps);
  }

  // ----- a negative initial count -----

  lemma Extend(n: nat, init: int, maxVal: int, s: State, step: Step)
    requires Reachable(n, init, maxVal, s) && Next(s, step).Some?
    ensures Reachable(n, init, maxVal, Next(s, step).value)
  {
    var steps :| Exec(Initial(n, init, maxVal), steps) == Some(s);
    assert (steps + [step])[..|steps|] == steps;
    assert Exec(Initial(n, init, maxVal), steps + [step]) == Next(s, step);
  }

  lemma {:induction false} ExtendBy(n: nat, init: int, maxVal: int, s: State, p: nat, k: nat) returns (t: State)
    requires Reachable(n, init, maxVal, s)
    ensures Reachable(n, init, maxVal, t) && t == Advanced(s, p, k)
    decreases k
  {
    t := s;
    if k > 0 && Next(s, Advance(p)).Some? {
      Extend(n, init, maxVal, s, Advance(p));
      t := ExtendBy(n, init, maxVal, Next(s, Advance(p)).value, p, k - 1);
    }
  }

  /** Process p takes up to k steps on its own. */
  function Advanced(s: State, p: nat, k: nat): State
    decreases k
  {
    if k > 0 && Next(s, Advance(p)).Some? then Advanced(Next(s, Advance(p)).value, p, k - 1) else s
  }

  /** With a negative initial count process 0 goes to sleep and process 1's sem_reset
      to 1 does not wake it, because the count it replaces is not 0. */
  lemma NegativeInitLoses(init: int, maxVal: int) returns (s: State)
    requires init < 0
    ensures Reachable(2, init, maxVal, s) && Lost(s)
  {
    var s0 := Initial(2, init, maxVal);
    assert Exec(s0, []) == Some(s0);
    Extend(2, init, maxVal, s0, Call(0, Wait));
    var s1 := s0.(procs := [Acquire(Wait), Idle]);
    assert s1 == Next(s0, Call(0, Wait)).value;
    var s2 := ExtendBy(2, init, maxVal, s1, 0, 5);
    assert s2 == s1.(procs := [Asleep, Idle]) by { WaiterSleeps(s1); }
    Extend(2, init, maxVal, s2, Call(1, SetCount(1, maxVal)));
    var s3 := s2.(procs := [Asleep, Acquire(SetCount(1, maxVal))]);
    assert s3 == Next(s2, Call(1, SetCount(1, maxVal))).value;
    s := ExtendBy(2, init, maxVal, s3, 1, 3);
    assert s.sslock == None && s.count == 1 && s.procs[0].Asleep? by { ResetFromNegative(s3, maxVal); }
  }

  lemma WaiterSleeps(s: State)
    requires |s.procs| == 2 && s.procs == [Acquire(Wait), Idle] && s.count <= 0 && s.killed == {} && s.sslock == None
    requires s.ptlock == None
    ensures Advanced(s, 0, 5) == s.(procs := [Asleep, Idle])
  {
    var a := Next(s, Advance(0)).value;
    assert a == s.(sslock := Some(0), procs := [Body(Wait), Idle]);
    var b := Next(a, Advance(0)).value;
    assert b == a.(procs := [SleepAcquire, Idle]);
    var c := Next(b, Advance(0)).value;
    assert c == b.(ptlock := Some(0), procs := [SleepRelease, Idle]);
    var d := Next(c, Advance(0)).value;
    assert d == c.(sslock := None, procs := [SleepSet, Idle]);
    var e := Next(d, Advance(0)).value;
    assert e == d.(ptlock := None, procs := [Asleep, Idle]);
    assert Advanced(s, 0, 5) == Advanced(a, 0, 4) == Advanced(b, 0, 3) == Advanced(c, 0, 2)
      == Advanced(d, 0, 1) == Advanced(e, 0, 0);
  }

  lemma ResetFromNegative(s: State, max: int)
    requires s.procs == [Asleep, Acquire(SetCount(1, max))] && s.count < 0 && s.sslock == None && s.ptlock == None
    requires max == s.maxVal
    ensures var t := Advanced(s, 1, 3); |t.procs| == 2 && t.sslock == None && t.count == 1 && t.procs[0].Asleep?
  {
    var a := Next(s, Advance(1)).value;
    assert a == s.(sslock := Some(1), procs := [Asleep, Body(SetCount(1, max))]);
    var b := Next(a, Advance(1)).value;
    assert b == a.(count := 1, wasReset := true, procs := [Asleep, Leave(SetCount(1, max))]);
    var c := Next(b, Advance(1)).value;
    assert c == b.(sslock := None, procs := [Asleep, Idle]);
    assert Advanced(s, 1, 3) == Advanced(a, 1, 2) == Advanced(b, 1, 1) == Advanced(c, 1, 0);
  }

  /** Wakeups are never lost exactly when the semaphore starts with a count of at least 0. */
  lemma NeverLostExactly(init: int, maxVal: int)
    ensures (forall n: nat, s: State :: Reachable(n, init, maxVal, s) ==> !Lost(s)) <==> init >= 0
  {
    if init >= 0 {
      forall n: nat, s: State | Reachable(n, init, maxVal, s) ensures !Lost(s) {
        NoLostWakeup(n, init, maxVal, s);
      }
    } else {
      var s := NegativeInitLoses(init, maxVal);
    }
  }

  // ----- accounting -----

  /** Without resets the count is what was put in less what was taken out, within its bounds. */
  predicate Balanced(init: int, maxVal: int, s: State) {
    !s.wasReset ==> s.maxVal == maxVal && s.count == init + s.accepted - s.taken && s.count <= maxVal
  }

  lemma {:induction false} RunIsBalanced(n: nat, init: int, maxVal: int, steps: seq<Step>)
    requires init <= maxVal && Exec(Initial(n, init, maxVal), steps).Some?
    ensures Balanced(init, maxVal, Exec(Initial(n, init, maxVal), steps).value)
  {
    if steps != [] {
      RunIsBalanced(n, init, maxVal, steps[..|steps| - 1]);
    }
  }

  /** count = init + accepted posts - successful waits, and 0 <= count <= maxVal. */
  lemma CountIsConserved(n: nat, init: int, maxVal: int, s: State)
    requires 0 <= init <= maxVal && Reachable(n, init, maxVal, s) && !s.wasReset
    ensures s.count == init + s.accepted - s.taken && 0 <= s.count <= maxVal
  {
    var steps :| Exec(Initial(n, init, maxVal), steps) == Some(s);
    RunIsBalanced(n, init, maxVal, steps);
    NoLostWakeup(n, init, maxVal, s);
  }

  // ----- what the calls come to -----

  /** Process p runs the critical section of op in this step. */
  predicate Runs(s: State, step: Step, op: Op) {
    step.Advance? && step.p < |s.procs| && s.procs[step.p] == Body(op)
  }

  /** A wait or a try that finds the count above 0 takes one, a post below the maximum puts one in,
      and a reset sets what it is told; nothing else touches the semaphore. */
  lemma SectionEffects(s: State, step: Step)
    requires Next(s, step).Some?
    ensures var t := Next(s, step).value;
      && t.taken - s.taken == (if (Runs(s, step, Wait) || Runs(s, step, TryWait)) && s.count > 0 then 1 else 0)
      && t.accepted - s.accepted == (if Runs(s, step, Post) && s.count != s.maxVal then 1 else 0)
      && (!ResetsCount(s, step) ==> t.count - s.count == (t.accepted - s.accepted) - (t.taken - s.taken))
      && (ResetsCount(s, step) ==> t.count == s.procs[step.p].op.val)
      && t.maxVal == (if ResetsMax(s, step) then s.procs[step.p].op.max else s.maxVal)
  {
  }

  predicate ResetsCount(s: State, step: Step) {
    step.Advance? && step.p < |s.procs| && s.procs[step.p].Body? && s.procs[step.p].op.SetCount?
  }

  predicate ResetsMax(s: State, step: Step) {
    step.Advance? && step.p < |s.procs| && s.procs[step.p].Body? && s.procs[step.p].op.SetMax?
  }

  /** sem_wait sleeps exactly when there is nothing to take and the caller is not killed; sem_post
      and sem_reset wake exactly when they take the count from 0 to above it. */
  lemma WhoSleepsWhoWakes(s: State, step: Step)
    requires Next(s, step).Some? && step.Advance? && s.procs[step.p].Body? && s.count >= 0
    ensures var t, q := Next(s, step).value, Next(s, step).value.procs[step.p];
      && (q.SleepAcquire? <==> Runs(s, step, Wait) && s.count == 0 && step.p !in s.killed)
      && (q.WakeAcquire? <==> s.count == 0 && t.count > 0)
      && (!q.SleepAcquire? && !q.WakeAcquire? ==> q == Leave(s.procs[step.p].op))
  {
  }

  /** The locks are free and process p is to go on with op. */
  predicate Ready(s: State, p: nat, op: Op) {
    p < |s.procs| && s.procs[p] == Acquire(op) && s.sslock == None && s.ptlock == None
  }

  lemma OneAdvance(s: State, p: nat, t: State, k: nat)
    requires k > 0 && Next(s, Advance(p)) == Some(t)
    ensures Advanced(s, p, k) == Advanced(t, p, k - 1)
  {
  }

  /** sem_reset's section on maxVal, run without others between its steps. */
  lemma MaxAlone(s: State, p: nat, max: int, k: nat)
    requires Ready(s, p, SetMax(max)) && k >= 3
    ensures Advanced(s, p, k) == s.(maxVal := max, wasReset := true, procs := s.procs[p := Idle])
  {
    var op := SetMax(max);
    var a := s.(sslock := Some(p), procs := s.procs[p := Body(op)]);
    var b := a.(maxVal := max, wasReset := true, procs := a.procs[p := Leave(op)]);
    var c := b.(sslock := None, procs := b.procs[p := Idle]);
    OneAdvance(s, p, a, k);
    OneAdvance(a, p, b, k - 1);
    OneAdvance(b, p, c, k - 2);
    assert c.procs == s.procs[p := Idle];
    assert Next(c, Advance(p)) == None;
  }

  /** sem_reset run without others between its steps: count and maxVal are as asked, maxVal never
      lower, and everybody asleep is woken if the count was 0 and is not any more. */
  lemma ResetAlone(s: State, p: nat, val: int, max: int)
    requires Ready(s, p, SetCount(val, max)) && val >= 0
    ensures var t := Advanced(s, p, 8);
      && t.count == val && t.maxVal == (if max > s.maxVal then max else s.maxVal)
      && t.sslock == None && t.ptlock == None && t.accepted == s.accepted && t.taken == s.taken
      && t.procs == (if val > 0 && s.count == 0 then WakeAll(s.procs) else s.procs)[p := Idle]
  {
    var op := SetCount(val, max);
    var wakes := val > 0 && s.count == 0;
    var a := s.(sslock := Some(p), procs := s.procs[p := Body(op)]);
    var b := a.(count := val, wasReset := true, procs := a.procs[p := if wakes then WakeAcquire(op) else Leave(op)]);
    OneAdvance(s, p, a, 8);
    OneAdvance(a, p, b, 7);
    if wakes {
      var c := b.(ptlock := Some(p), procs := b.procs[p := WakeRun(op)]);
      var d := b.(procs := WakeAll(c.procs)[p := Leave(op)]);
      OneAdvance(b, p, c, 6);
      OneAdvance(c, p, d, 5);
      ResetLeaves(d, p, op, 4);
      assert d.procs[p := Idle] == WakeAll(s.procs)[p := Idle];
    } else {
      ResetLeaves(b, p, op, 6);
      assert b.procs[p := Idle] == s.procs[p := Idle];
    }
  }

  lemma ResetLeaves(s: State, p: nat, op: Op, k: nat)
    requires p < |s.procs| && op.SetCount? && s.procs[p] == Leave(op) && s.sslock == Some(p) && s.ptlock == None
    requires k >= 4
    ensures var t := Advanced(s, p, k);
      && t.count == s.count && t.maxVal == (if op.max > s.maxVal then op.max else s.maxVal)
      && t.sslock == None && t.ptlock == None && t.accepted == s.accepted && t.taken == s.taken
      && t.procs == s.procs[p := Idle]
  {
    var t := s.(sslock := None, procs := s.procs[p := After(s, op)]);
    OneAdvance(s, p, t, k);
    if op.max > s.maxVal {
      MaxAlone(t, p, op.max, k - 1);
      assert t.procs[p := Idle] == s.procs[p := Idle];
    } else {
      assert Next(t, Advance(p)) == None;
    }
  }

  // ----- maxVal is the owner's -----

  predicate IsReset(op: Op) {
    op.SetCount? || op.SetMax?
  }

  function OpOf(q: Proc): Op {
    match q
    case Acquire(op) => op
    case Body(op) => op
    case WakeAcquire(op) => op
    case WakeRun(op) => op
    case Leave(op) => op
    case _ => Wait
  }

  /** Only process o is inside sem_reset, and where it is about to set maxVal it is to no less. */
  predicate Owned(s: State, o: nat) {
    forall p | 0 <= p < |s.procs| && IsReset(OpOf(s.procs[p])) ::
      p == o && ((s.procs[p].Acquire? || s.procs[p].Body?) && OpOf(s.procs[p]).SetMax? ==>
        OpOf(s.procs[p]).max >= s.maxVal)
  }

  predicate OwnerCalls(step: Step, o: nat) {
    step.Call? && IsReset(step.op) ==> step.p == o
  }

  /** sem_reset, which only the owner gets through, never lowers maxVal. */
  lemma MaxNeverFalls(s: State, step: Step, o: nat)
    requires Owned(s, o) && OwnerCalls(step, o) && Next(s, step).Some?
    ensures Owned(Next(s, step).value, o) && Next(s, step).value.maxVal >= s.maxVal
  {
    var t := Next(s, step).value;
    forall p | 0 <= p < |t.procs| && IsReset(OpOf(t.procs[p]))
      ensures p == o && ((t.procs[p].Acquire? || t.procs[p].Body?) && OpOf(t.procs[p]).SetMax? ==>
        OpOf(t.procs[p]).max >= t.maxVal)
    {
      assert p != step.p ==> OpOf(s.procs[p]) == OpOf(t.procs[p]);
    }
  }

  lemma {:induction false} MaxOverRun(n: nat, init: int, maxVal: int, steps: seq<Step>, o: nat)
    requires Exec(Initial(n, init, maxVal), steps).Some? && forall i | 0 <= i < |steps| :: OwnerCalls(steps[i], o)
    ensures var s := Exec(Initial(n, init, maxVal), steps).value; Owned(s, o) && s.maxVal >= maxVal
  {
    if steps != [] {
      var front, last := steps[..|steps| - 1], steps[|steps| - 1];
      MaxOverRun(n, init, maxVal, front, o);
      MaxNeverFalls(Exec(Initial(n, init, maxVal), front).value, last, o);
    }
  }
}
