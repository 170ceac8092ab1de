/** One semaphore slot of sem.c as a gate: sem_open, semdup, sem_close and sem_unlink by any
    number of processes, at the grain of stable.gslock and ptable.lock. Every sem_unlink
    sleeps on the one address of stable, so a sem_close of any semaphore may wake it. */
module Gate {
  import opened Blocks
  import opened Sums

  /** A critical section. Open and Create are the two of sem_open; Find, Unlink and, after
      each sleep, Recheck those of sem_unlink. Elsewhere is a sem_close of another slot. */
  datatype Op = Open | Create | Close | Dup(q: nat) | Find | Unlink | Recheck | Elsewhere(wakes: bool)

  /** Where a process stands: Acquire waits for gslock; Body and the states up to Leave hold
      it; the sleep and the wakeup are spelled out under ptable.lock. */
  datatype At =
    | Idle
    | Acquire(op: Op)
    | Body(op: Op)
    | WakeAcquire
    | WakeRun
    | Leave(next: Option<Op>)
    | SleepAcquire
    | SleepRelease
    | SleepSet
    | Asleep
    | Runnable
    | Resumed

  /** held counts the process's descriptors of the semaphore. */
  datatype Proc = Proc(at: At, held: nat)

  /** made counts the creations; clean says that each found the slot unlinked and nobody
      waiting in sem_unlink. */
  datatype State = State(
    procs: seq<Proc>,
    killed: set<nat>,
    gslock: Option<nat>,
    ptlock: Option<nat>,
    named: bool,
    linked: bool,
    ref: int,
    waitingForDeath: bool,
    made: nat,
    clean: bool)

  datatype Step = Call(p: nat, op: Op) | Advance(p: nat) | Kill(p: nat)

  function Initial(n: nat): State {
    State(seq(n, i => Proc(Idle, 0)), {}, None, None, false, false, 0, false, 0, true)
  }

  function Wakened(q: Proc): Proc {
    if q.at.Asleep? then q.(at := Runnable) else q
  }

  function WakeAll(procs: seq<Proc>): (r: seq<Proc>)
    ensures |r| == |procs| && forall i | 0 <= i < |procs| :: r[i] == Wakened(procs[i])
  {
    seq(|procs|, i requires 0 <= i < |procs| => Wakened(procs[i]))
  }

  function Moved(s: State, p: nat, at: At): State
    requires p < |s.procs|
  {
    s.(procs := s.procs[p := s.procs[p].(at := at)])
  }

  function Given(s: State, q: nat): State
    requires q < |s.procs|
  {
    s.(procs := s.procs[q := s.procs[q].(held := s.procs[q].held + 1)])
  }

  /** Only a descriptor's holder closes or duplicates it. */
  predicate CallOk(s: State, p: nat, op: Op)
    requires p < |s.procs|
  {
    match op
    case Open | Find | Elsewhere(_) => true
    case Close => s.procs[p].held > 0
    case Dup(q) => s.procs[p].held > 0 && q < |s.procs| && q != p
    case _ => false
  }

  /** sem_unlink's tests under gslock. */
  function Decide(s: State, p: nat): State
    requires p < |s.procs|
  {
    if s.ref == 0 then Moved(s.(linked := false), p, Leave(None))
    else if p in s.killed then Moved(s, p, Leave(None))
    else Moved(s, p, SleepAcquire)
  }

  /** Past its tests and not yet back: asleep, about to be, or woken and not yet looking again. */
  predicate Inside(at: At) {
    Sleepy(at) || at.Runnable? || at.Resumed? || at == Acquire(Recheck) || at == Body(Recheck)
  }

  predicate Sleepy(at: At) {
    at.SleepAcquire? || at.SleepRelease? || at.SleepSet? || at.Asleep?
  }

  predicate Unlinking(at: At) {
    at == Leave(Some(Unlink)) || at == Acquire(Unlink) || at == Body(Unlink)
  }

  predicate Closing(at: At) {
    at == Acquire(Close) || at == Body(Close)
  }

  predicate NobodyInside(s: State) {
    forall p | 0 <= p < |s.procs| :: !Inside(s.procs[p].at)
  }

  /** The critical section of op, run by p with gslock held. */
  function RunBody(s: State, p: nat, op: Op): State
    requires p < |s.procs|
  {
    match op
    case Open =>
      if s.named && s.ref > 0 then Moved(Given(s.(ref := s.ref + 1), p), p, Leave(None))
      else if !s.linked then Moved(s, p, Leave(Some(Create)))
      else Moved(s, p, Leave(None))
    case Create =>
      Moved(Given(s.(named := true, linked := true, ref := 1, waitingForDeath := false, made := s.made + 1,
                     clean := s.clean && !s.linked && NobodyInside(s)), p), p, Leave(None))
    case Close =>
      Moved(s.(ref := s.ref - 1), p, if s.ref - 1 == 0 && s.waitingForDeath then WakeAcquire else Leave(None))
    case Dup(q) => Moved(if q < |s.procs| then Given(s.(ref := s.ref + 1), q) else s, p, Leave(None))
    case Find => Moved(s, p, Leave(if s.named then Some(Unlink) else None))
    case Unlink => Decide(s.(waitingForDeath := true), p)
    case Recheck => Decide(s, p)
    case Elsewhere(wakes) => Moved(s, p, if wakes then WakeAcquire else Leave(None))
  }

  function Called(s: State, p: nat, op: Op): State
    requires p < |s.procs| && CallOk(s, p, op)
  {
    // sys_sem_close gives the descriptor up before it calls sem_close
    var q := s.procs[p];
    s.(procs := s.procs[p := Proc(Acquire(op), if op.Close? then q.held - 1 else q.held)])
  }

  /** One step; None when it has to wait for a lock, for a wakeup, or for the caller. */
  function Next(s: State, step: Step): Option<State> {
    if step.p >= |s.procs| then None else
      var p := step.p;
      match step
      case Call(_, op) => if s.procs[p].at.Idle? && CallOk(s, p, op) then Some(Called(s, p, op)) else None
      case Kill(_) =>
        if s.ptlock.Some? then None
        else Some(s.(killed := s.killed + {p}, procs := s.procs[p := Wakened(s.procs[p])]))
      case Advance(_) => Advanced(s, p)
  }

  /** Where a process outside the critical sections goes next. */
  function Onward(at: At): At {
    match at
    case Acquire(op) => Body(op)
    case WakeAcquire => WakeRun
    case WakeRun => Leave(None)
    case Leave(None) => Idle
    case Leave(Some(op)) => Acquire(op)
    case SleepAcquire => SleepRelease
    case SleepRelease => SleepSet
    case SleepSet => Asleep
    case Runnable => Resumed
    case Resumed => Acquire(Recheck)
    case _ => at
  }

  function Advanced(s: State, p: nat): Option<State>
    requires p < |s.procs|
  {
    var at := s.procs[p].at;
    match at
    case Idle | Asleep => None
    case Body(op) => Some(RunBody(s, p, op))
    case Acquire(_) => if s.gslock.Some? then None else Some(Moved(s.(gslock := Some(p)), p, Onward(at)))
    case WakeAcquire | SleepAcquire | Runnable =>
      if s.ptlock.Some? then None else Some(Moved(s.(ptlock := Some(p)), p, Onward(at)))
    case WakeRun => Some(Moved(s.(ptlock := None, procs := WakeAll(s.procs)), p, Onward(at)))
    case Leave(_) | SleepRelease => Some(Moved(s.(gslock := None), p, Onward(at)))
    case SleepSet | Resumed => Some(Moved(s.(ptlock := None), p, Onward(at)))
  }

  // ----- the locks -----

  predicate HoldsGs(at: At) {
    at.Body? || at.WakeAcquire? || at.WakeRun? || at.Leave? || at.SleepAcquire? || at.SleepRelease?
  }

  predicate HoldsPt(at: At) {
    at.WakeRun? || at.SleepRelease? || at.SleepSet? || at.Resumed?
  }

  predicate LocksOk(s: State) {
    && (s.gslock.Some? ==> s.gslock.value < |s.procs|) && (s.ptlock.Some? ==> s.ptlock.value < |s.procs|)
    && forall p | 0 <= p < |s.procs| ::
      (HoldsGs(s.procs[p].at) <==> s.gslock == Some(p)) && (HoldsPt(s.procs[p].at) <==> s.ptlock == Some(p))
  }

  /** Only process p's standing changes, and the locks follow it. */
  lemma LocksFollow(s: State, t: State, p: nat)
    requires LocksOk(s) && |t.procs| == |s.procs| && p < |s.procs|
    requires forall q | 0 <= q < |s.procs| && q != p ::
      t.procs[q].at == s.procs[q].at || (s.procs[q].at.Asleep? && t.procs[q].at.Runnable?)
    requires t.gslock == if HoldsGs(t.procs[p].at) then Some(p) else if HoldsGs(s.procs[p].at) then None else s.gslock
    requires t.ptlock == if HoldsPt(t.procs[p].at) then Some(p) else if HoldsPt(s.procs[p].at) then None else s.ptlock
    requires HoldsGs(t.procs[p].at) && !HoldsGs(s.procs[p].at) ==> s.gslock == None
    requires HoldsPt(t.procs[p].at) && !HoldsPt(s.procs[p].at) ==> s.ptlock == None
    ensures LocksOk(t)
  {
  }

  /** A critical section moves its own process on and leaves the locks alone. */
  lemma BodyMoves(s: State, p: nat, op: Op)
    requires p < |s.procs|
    ensures var t := RunBody(s, p, op);
      && |t.procs| == |s.procs| && t.gslock == s.gslock && t.ptlock == s.ptlock && t.killed == s.killed
      && (t.procs[p].at.WakeAcquire? || t.procs[p].at.Leave? || t.procs[p].at.SleepAcquire?) && ProcOk(t.procs[p])
      && forall q | 0 <= q < |s.procs| ::
           t.procs[q].held >= s.procs[q].held && (q != p ==> t.procs[q].at == s.procs[q].at)
  {
    hide NobodyInside, Decide;
    if op.Unlink? || op.Recheck? {
      DecideMoves(if op.Unlink? then s.(waitingForDeath := true) else s, p);
    }
  }

  lemma DecideMoves(s: State, p: nat)
    requires p < |s.procs|
    ensures var t := Decide(s, p);
      && t.gslock == s.gslock && t.ptlock == s.ptlock && t.killed == s.killed
      && t.procs == s.procs[p := s.procs[p].(at := t.procs[p].at)]
      && (t.procs[p].at == Leave(None) || t.procs[p].at == SleepAcquire)
  {
  }

  lemma BodyKeepsLocks(s: State, p: nat, op: Op)
    requires LocksOk(s) && p < |s.procs| && s.procs[p].at == Body(op)
    ensures LocksOk(RunBody(s, p, op))
  {
    hide RunBody;
    BodyMoves(s, p, op);
    LocksFollow(s, RunBody(s, p, op), p);
  }

  lemma OthersStay(s: State, p: nat)
    requires p < |s.procs| && Advanced(s, p).Some? && !s.procs[p].at.Body?
    ensures var t := Advanced(s, p).value;
      && |t.procs| == |s.procs| && forall q | 0 <= q < |s.procs| ::
           && t.procs[q].held == s.procs[q].held
           && (q != p ==> t.procs[q].at == s.procs[q].at || (s.procs[q].at.Asleep? && t.procs[q].at.Runnable?))
  {
    hide RunBody;
  }

  /** A move outside the critical sections touches no field of the slot. */
  lemma OwnMove(s: State, p: nat)
    requires p < |s.procs| && Advanced(s, p).Some? && !s.procs[p].at.Body? && ProcOk(s.procs[p])
    ensures var t := Advanced(s, p).value; |t.procs| == |s.procs| && SlotSame(s, t) && ProcOk(t.procs[p])
    ensures MoveOk(s.procs[p].at, Advanced(s, p).value.procs[p].at)
  {
    hide Advanced, SlotSame, MoveOk;
    KeepsSlot(s, p);
    MovesOnward(s, p);
    OnwardOk(s.procs[p], Advanced(s, p).value.procs[p]);
  }

  lemma KeepsSlot(s: State, p: nat)
    requires p < |s.procs| && Advanced(s, p).Some? && !s.procs[p].at.Body?
    ensures SlotSame(s, Advanced(s, p).value)
  {
    hide RunBody, Onward;
  }

  lemma MovesOnward(s: State, p: nat)
    requires p < |s.procs| && Advanced(s, p).Some? && !s.procs[p].at.Body?
    ensures var t := Advanced(s, p).value;
      |t.procs| == |s.procs| && t.procs[p] == s.procs[p].(at := Onward(s.procs[p].at))
  {
    hide RunBody, Onward;
  }

  lemma OnwardOk(q: Proc, r: Proc)
    requires ProcOk(q) && !q.at.Body? && r == q.(at := Onward(q.at))
    ensures MoveOk(q.at, r.at) && ProcOk(r)
  {
  }

  predicate SlotSame(s: State, t: State) {
    && t.ref == s.ref && t.linked == s.linked && t.named == s.named && t.waitingForDeath == s.waitingForDeath
    && t.made == s.made && t.clean == s.clean
  }

  /** Nobody gets inside sem_unlink, asleep or to a close except through a critical section. */
  predicate MoveOk(a: At, b: At) {
    && (Inside(b) ==> Inside(a)) && (Sleepy(b) ==> Sleepy(a)) && (Unlinking(b) ==> Unlinking(a))
    && (Closing(a) <==> Closing(b)) && (a.WakeAcquire? ==> b.WakeRun?)
  }

  /** The locks go with a process that moves on from a to b. */
  predicate LockMoves(s: State, t: State, p: nat, a: At, b: At) {
    && t.gslock == (if HoldsGs(b) then Some(p) else if HoldsGs(a) then None else s.gslock)
    && t.ptlock == (if HoldsPt(b) then Some(p) else if HoldsPt(a) then None else s.ptlock)
    && (HoldsGs(b) && !HoldsGs(a) ==> s.gslock == None) && (HoldsPt(b) && !HoldsPt(a) ==> s.ptlock == None)
  }

  lemma LocksMove(s: State, p: nat)
    requires LocksOk(s) && p < |s.procs| && Advanced(s, p).Some? && !s.procs[p].at.Body?
    ensures |Advanced(s, p).value.procs| == |s.procs|
    ensures LockMoves(s, Advanced(s, p).value, p, s.procs[p].at, Advanced(s, p).value.procs[p].at)
  {
    hide RunBody, LocksOk;
    AtLocks(s, p);
  }

  lemma AtLocks(s: State, p: nat)
    requires LocksOk(s) && p < |s.procs|
    ensures (HoldsGs(s.procs[p].at) <==> s.gslock == Some(p)) && (HoldsPt(s.procs[p].at) <==> s.ptlock == Some(p))
  {
  }

  lemma AdvanceKeepsLocks(s: State, p: nat)
    requires LocksOk(s) && p < |s.procs| && Advanced(s, p).Some?
    ensures LocksOk(Advanced(s, p).value)
  {
    hide RunBody, LocksOk;
    if s.procs[p].at.Body? {
      BodyKeepsLocks(s, p, s.procs[p].at.op);
    } else {
      OthersStay(s, p);
      LocksMove(s, p);
      LocksFollow(s, Advanced(s, p).value, p);
    }
  }

  lemma StepKeepsLocks(s: State, step: Step)
    requires LocksOk(s) && Next(s, step).Some?
    ensures LocksOk(Next(s, step).value)
  {
    hide Advanced;
    if step.Advance? {
      AdvanceKeepsLocks(s, step.p);
    } else {
      LocksFollow(s, Next(s, step).value, step.p);
    }
  }

  // ----- the references -----

  /** The references a process stands for: its descriptors, and the one it is giving up. */
  function Refs(q: Proc): int {
    q.held + if Closing(q.at) then 1 else 0
  }

  /** Who duplicates a descriptor holds one, and a call goes on to a second section only
      in sem_open and sem_unlink. */
  predicate ProcOk(q: Proc) {
    match q.at
    case Acquire(op) => op.Dup? ==> q.held > 0
    case Body(op) => op.Dup? ==> q.held > 0
    case Leave(Some(op)) => op.Create? || op.Unlink?
    case _ => true
  }

  /** As long as every creation was clean: ref counts the references, an unlinked slot has
      none. */
  ghost predicate RefsOk(s: State) {
    s.ref == Sum(Refs, s.procs) && (!s.linked ==> s.ref == 0)
  }

  predicate ProcsOk(s: State) {
    forall p | 0 <= p < |s.procs| :: ProcOk(s.procs[p])
  }

  predicate WakeupPending(s: State) {
    s.gslock.Some? && s.gslock.value < |s.procs|
    && (s.procs[s.gslock.value].at.WakeAcquire? || s.procs[s.gslock.value].at.WakeRun?)
  }

  /** Who is inside sem_unlink has left its mark, and who sleeps there has something to wait
      for or a wakeup coming. */
  predicate SleepOk(s: State) {
    forall p | 0 <= p < |s.procs| && Inside(s.procs[p].at) ::
      s.waitingForDeath && (Sleepy(s.procs[p].at) ==> s.ref > 0 || WakeupPending(s))
  }

  ghost predicate Inv(s: State) {
    LocksOk(s) && ProcsOk(s) && (s.clean ==> RefsOk(s) && SleepOk(s))
  }

  lemma BodyKeepsProcs(s: State, p: nat, op: Op)
    requires ProcsOk(s) && p < |s.procs|
    ensures ProcsOk(RunBody(s, p, op))
  {
    hide RunBody;
    BodyMoves(s, p, op);
    forall q | 0 <= q < |s.procs| ensures ProcOk(RunBody(s, p, op).procs[q]) {
      assert ProcOk(s.procs[q]);
    }
  }

  lemma AdvanceKeepsProcs(s: State, p: nat)
    requires ProcsOk(s) && p < |s.procs| && Advanced(s, p).Some?
    ensures ProcsOk(Advanced(s, p).value)
  {
    hide RunBody, Advanced;
    assert ProcOk(s.procs[p]);
    if s.procs[p].at.Body? {
      AdvanceBody(s, p);
      BodyKeepsProcs(s, p, s.procs[p].at.op);
    } else {
      OwnMove(s, p);
      OthersStay(s, p);
      forall q | 0 <= q < |s.procs| ensures ProcOk(Advanced(s, p).value.procs[q]) {
        assert ProcOk(s.procs[q]);
      }
    }
  }

  lemma StepKeepsProcs(s: State, step: Step)
    requires ProcsOk(s) && Next(s, step).Some?
    ensures ProcsOk(Next(s, step).value)
  {
    hide Advanced;
    if step.Advance? {
      AdvanceKeepsProcs(s, step.p);
    } else {
      forall q | 0 <= q < |s.procs| ensures ProcOk(Next(s, step).value.procs[q]) {
        assert ProcOk(s.procs[q]);
      }
    }
  }

  lemma RefsAreNat(s: State, p: nat)
    requires p < |s.procs|
    ensures Sum(Refs, s.procs) >= Refs(s.procs[p]) >= 0
  {
    SumAtLeast(Refs, s.procs, p);
  }

  lemma RefsOfMoved(s: State, p: nat, at: At)
    requires p < |s.procs|
    ensures Sum(Refs, Moved(s, p, at).procs) == Sum(Refs, s.procs) - Refs(s.procs[p]) + Refs(s.procs[p].(at := at))
  {
    SumUpdate(Refs, s.procs, p, s.procs[p].(at := at));
  }

  lemma RefsOfGiven(s: State, q: nat)
    requires q < |s.procs|
    ensures Sum(Refs, Given(s, q).procs) == Sum(Refs, s.procs) + 1
  {
    SumUpdate(Refs, s.procs, q, s.procs[q].(held := s.procs[q].held + 1));
  }

  lemma OpenKeepsRefs(s: State, p: nat)
    requires RefsOk(s) && p < |s.procs| && s.procs[p].at == Body(Open)
    ensures RefsOk(RunBody(s, p, Open))
  {
    if s.named && s.ref > 0 {
      RefsOfGiven(s, p);
      RefsOfMoved(Given(s, p), p, Leave(None));
      assert RunBody(s, p, Open).procs == Moved(Given(s, p), p, Leave(None)).procs;
    } else {
      StayingKeepsRefs(s, p, RunBody(s, p, Open));
    }
  }

  lemma CloseKeepsRefs(s: State, p: nat)
    requires RefsOk(s) && p < |s.procs| && s.procs[p].at == Body(Close)
    ensures RefsOk(RunBody(s, p, Close))
  {
    var at := RunBody(s, p, Close).procs[p].at;
    RefsAreNat(s, p);
    RefsOfMoved(s, p, at);
    assert RunBody(s, p, Close).procs == Moved(s, p, at).procs;
  }

  lemma DupKeepsRefs(s: State, p: nat, q: nat)
    requires RefsOk(s) && p < |s.procs| && q < |s.procs| && s.procs[p].at == Body(Dup(q)) && s.procs[p].held > 0
    ensures RefsOk(RunBody(s, p, Dup(q)))
  {
    RefsAreNat(s, p);
    RefsOfGiven(s, q);
    RefsOfMoved(Given(s, q), p, Leave(None));
    assert RunBody(s, p, Dup(q)).procs == Moved(Given(s, q), p, Leave(None)).procs;
  }

  /** A section that changes nobody's references and unlinks the slot at most without any. */
  lemma StayingKeepsRefs(s: State, p: nat, t: State)
    requires RefsOk(s) && p < |s.procs| && |t.procs| == |s.procs| && t.ref == s.ref
    requires t.linked || s.ref == 0 || !s.linked
    requires t.procs == s.procs[p := s.procs[p].(at := t.procs[p].at)]
    requires Refs(t.procs[p]) == Refs(s.procs[p])
    ensures RefsOk(t)
  {
    SumUpdate(Refs, s.procs, p, t.procs[p]);
  }

  lemma BodyKeepsRefs(s: State, p: nat, op: Op)
    requires RefsOk(s) && p < |s.procs| && s.procs[p].at == Body(op) && ProcOk(s.procs[p])
    requires RunBody(s, p, op).clean
    ensures RefsOk(RunBody(s, p, op))
  {
    hide NobodyInside, RefsOk, Decide;
    match op
    case Open => OpenKeepsRefs(s, p);
    case Create => CreateKeepsRefs(s, p);
    case Close => CloseKeepsRefs(s, p);
    case Dup(q) =>
      if q < |s.procs| {
        DupKeepsRefs(s, p, q);
      } else {
        StayingKeepsRefs(s, p, RunBody(s, p, op));
      }
    case Unlink =>
      SameRefs(s, s.(waitingForDeath := true));
      DecideKeepsRefs(s.(waitingForDeath := true), p);
    case Recheck => DecideKeepsRefs(s, p);
    case _ => StayingKeepsRefs(s, p, RunBody(s, p, op));
  }

  lemma DecideKeepsRefs(s: State, p: nat)
    requires RefsOk(s) && p < |s.procs| && s.procs[p].at.Body? && !s.procs[p].at.op.Close?
    ensures RefsOk(Decide(s, p))
  {
    StayingKeepsRefs(s, p, Decide(s, p));
  }

  lemma CreateKeepsRefs(s: State, p: nat)
    requires RefsOk(s) && p < |s.procs| && s.procs[p].at == Body(Create) && RunBody(s, p, Create).clean
    ensures RefsOk(RunBody(s, p, Create))
  {
    RefsOfGiven(s, p);
    RefsOfMoved(Given(s, p), p, Leave(None));
    assert RunBody(s, p, Create).procs == Moved(Given(s, p), p, Leave(None)).procs;
  }

  /** Outside the critical sections nobody's references change. */
  lemma AdvanceKeepsRefs(s: State, p: nat)
    requires RefsOk(s) && p < |s.procs| && ProcOk(s.procs[p]) && Advanced(s, p).Some? && Advanced(s, p).value.clean
    ensures RefsOk(Advanced(s, p).value)
  {
    hide RunBody, Advanced, RefsOk;
    if s.procs[p].at.Body? {
      AdvanceBody(s, p);
      BodyKeepsRefs(s, p, s.procs[p].at.op);
    } else {
      OwnMove(s, p);
      OthersStay(s, p);
      SameRefs(s, Advanced(s, p).value);
    }
  }

  lemma StepKeepsRefs(s: State, step: Step)
    requires RefsOk(s) && ProcsOk(s) && Next(s, step).Some? && Next(s, step).value.clean
    ensures RefsOk(Next(s, step).value)
  {
    hide Advanced, RefsOk;
    assert ProcOk(s.procs[step.p]);
    if step.Advance? {
      AdvanceKeepsRefs(s, step.p);
    } else {
      SameRefs(s, Next(s, step).value);
    }
  }

  lemma SameRefs(s: State, t: State)
    requires RefsOk(s) && t.ref == s.ref && t.linked == s.linked && |t.procs| == |s.procs|
    requires forall q | 0 <= q < |s.procs| :: Refs(t.procs[q]) == Refs(s.procs[q])
    ensures RefsOk(t)
  {
    SumSame(Refs, Refs, t.procs, s.procs);
  }

  /** What a critical section does to the fields sem_unlink looks at. */
  lemma BodyFields(s: State, p: nat, op: Op)
    requires p < |s.procs| && (op.Recheck? ==> s.waitingForDeath)
    ensures var t := RunBody(s, p, op);
      && (s.waitingForDeath && !op.Create? ==> t.waitingForDeath)
      && (op.Create? || t.ref >= s.ref || (op.Close? && t.ref == s.ref - 1))
      && (op.Close? && s.ref == 1 && s.waitingForDeath ==> t.procs[p].at.WakeAcquire?)
      && (op.Create? && t.clean ==> NobodyInside(s) && t.procs[p].at == Leave(None))
      && (t.procs[p].at.SleepAcquire? ==> t.waitingForDeath && t.ref != 0 && t.ref == s.ref)
  {
  }

  lemma BodyKeepsSleep(s: State, p: nat, op: Op)
    requires LocksOk(s) && SleepOk(s) && s.ref >= 0 && p < |s.procs| && s.procs[p].at == Body(op)
    requires RunBody(s, p, op).clean
    ensures SleepOk(RunBody(s, p, op))
  {
    hide RunBody;
    assert op.Recheck? ==> Inside(s.procs[p].at);
    BodyMoves(s, p, op);
    BodyFields(s, p, op);
    AtLocks(s, p);
    var t := RunBody(s, p, op);
    forall q | 0 <= q < |t.procs| && Inside(t.procs[q].at)
      ensures t.waitingForDeath && (Sleepy(t.procs[q].at) ==> t.ref > 0 || WakeupPending(t))
    {
      if q != p {
        assert Inside(s.procs[q].at);
      }
    }
  }

  /** Whoever runs the wakeup holds both locks, so nobody is on the way to sleep, and it
      leaves nobody asleep. */
  lemma AllWoken(s: State, p: nat, q: nat)
    requires LocksOk(s) && p < |s.procs| && q < |s.procs| && s.procs[p].at.WakeRun?
    ensures !Sleepy(Advanced(s, p).value.procs[q].at)
  {
    hide RunBody, LocksOk;
    AtLocks(s, p);
    AtLocks(s, q);
  }

  lemma AdvanceKeepsSleep(s: State, p: nat)
    requires LocksOk(s) && SleepOk(s) && p < |s.procs| && Advanced(s, p).Some? && !s.procs[p].at.Body?
    requires ProcOk(s.procs[p])
    ensures SleepOk(Advanced(s, p).value)
  {
    hide Advanced, LocksOk;
    AtLocks(s, p);
    OthersStay(s, p);
    OwnMove(s, p);
    LocksMove(s, p);
    var t := Advanced(s, p).value;
    forall q | 0 <= q < |t.procs| && Inside(t.procs[q].at)
      ensures t.waitingForDeath && (Sleepy(t.procs[q].at) ==> t.ref > 0 || WakeupPending(t))
    {
      AtLocks(s, q);
      assert Inside(s.procs[q].at) && (Sleepy(t.procs[q].at) ==> Sleepy(s.procs[q].at));
      if s.procs[p].at.WakeRun? && Sleepy(t.procs[q].at) {
        AllWoken(s, p, q);
      }
    }
  }

  lemma StepKeepsInv(s: State, step: Step)
    requires Inv(s) && Next(s, step).Some?
    ensures Inv(Next(s, step).value)
  {
    hide RunBody, RefsOk, LocksOk, ProcsOk;
    StepKeepsLocks(s, step);
    StepKeepsProcs(s, step);
    var t, p := Next(s, step).value, step.p;
    if t.clean {
      CleanBefore(s, step);
      StepKeepsRefs(s, step);
      StepKeepsSleep(s, step);
    }
  }

  lemma CleanBefore(s: State, step: Step)
    requires Next(s, step).Some? && Next(s, step).value.clean
    ensures s.clean
  {
  }

  lemma StepKeepsSleep(s: State, step: Step)
    requires LocksOk(s) && ProcsOk(s) && RefsOk(s) && SleepOk(s) && Next(s, step).Some? && Next(s, step).value.clean
    ensures SleepOk(Next(s, step).value)
  {
    hide Advanced, RefsOk, LocksOk, RunBody;
    var t, p := Next(s, step).value, step.p;
    assert ProcOk(s.procs[p]);
    if step.Advance? {
      if s.procs[p].at.Body? {
        RefsPositive(s, p);
        AdvanceBody(s, p);
        BodyKeepsSleep(s, p, s.procs[p].at.op);
      } else {
        AdvanceKeepsSleep(s, p);
      }
    }
  }

  lemma AdvanceBody(s: State, p: nat)
    requires p < |s.procs| && s.procs[p].at.Body? && Advanced(s, p).Some?
    ensures var op := s.procs[p].at.op; Advanced(s, p).value == RunBody(s, p, op)
  {
  }

  lemma RefsPositive(s: State, p: nat)
    requires RefsOk(s) && p < |s.procs|
    ensures s.ref >= 0
  {
    RefsAreNat(s, p);
  }

  // ----- runs -----

  function Exec(s: State, steps: seq<Step>): Option<State> {
    if steps == [] then Some(s) else
      match Exec(s, steps[..|steps| - 1])
      case None => None
      case Some(t) => Next(t, steps[|steps| - 1])
  }

  ghost predicate Reachable(n: nat, s: State) {
    exists steps :: Exec(Initial(n), steps) == Some(s)
  }

  /** Before the first creation nobody gets past Find, and the first one is clean. */
  predicate Unmade(s: State) {
    && s.clean && !s.named && !s.linked
    && forall p | 0 <= p < |s.procs| :: !Inside(s.procs[p].at) && !Unlinking(s.procs[p].at)
  }

  predicate FirstIsClean(s: State) {
    (s.made == 0 ==> Unmade(s)) && (s.made == 1 ==> s.clean)
  }

  lemma BodyFirst(s: State, p: nat, op: Op)
    requires FirstIsClean(s) && p < |s.procs| && s.procs[p].at == Body(op)
    ensures FirstIsClean(RunBody(s, p, op))
  {
    BodyMoves(s, p, op);
  }

  lemma StepKeepsFirst(s: State, step: Step)
    requires FirstIsClean(s) && ProcsOk(s) && Next(s, step).Some?
    ensures FirstIsClean(Next(s, step).value)
  {
    hide RunBody, Advanced;
    var p := step.p;
    assert ProcOk(s.procs[p]);
    if step.Advance? {
      if s.procs[p].at.Body? {
        AdvanceBody(s, p);
        BodyFirst(s, p, s.procs[p].at.op);
      } else {
        OwnMove(s, p);
        OthersStay(s, p);
      }
    }
  }

  lemma {:induction false} RunKeepsInv(n: nat, steps: seq<Step>)
    requires Exec(Initial(n), steps).Some?
    ensures Inv(Exec(Initial(n), steps).value) && FirstIsClean(Exec(Initial(n), steps).value)
  {
    if steps == [] {
      SumZero(Refs, Initial(n).procs);
    } else {
      RunKeepsInv(n, steps[..|steps| - 1]);
      StepKeepsInv(Exec(Initial(n), steps[..|steps| - 1]).value, steps[|steps| - 1]);
      StepKeepsFirst(Exec(Initial(n), steps[..|steps| - 1]).value, steps[|steps| - 1]);
    }
  }

  /** A wakeup was lost: gslock is free, nothing is open, and yet someone sleeps in sem_unlink. */
  predicate Lost(s: State) {
    s.gslock == None && s.ref <= 0 && exists p :: 0 <= p < |s.procs| && s.procs[p].at.Asleep?
  }

  /** No lost wakeup at the gate, for any number of processes and any mix of calls and
      kills, as long as the slot is created only while unlinked with nobody waiting. */
  lemma GateOpens(n: nat, s: State, p: nat)
    requires Reachable(n, s) && s.clean && s.gslock == None && p < |s.procs| && s.procs[p].at.Asleep?
    ensures s.ref > 0 && s.waitingForDeath && s.ref == Sum(Refs, s.procs)
  {
    var steps :| Exec(Initial(n), steps) == Some(s);
    RunKeepsInv(n, steps);
    assert Inside(s.procs[p].at);
  }

  /** Under the locks nobody waits for good: while a process is in a call and not asleep,
      one of them can go on. */
  lemma SomeoneCanStep(n: nat, s: State, p: nat) returns (q: nat)
    requires Reachable(n, s) && p < |s.procs| && !s.procs[p].at.Idle? && !s.procs[p].at.Asleep?
    ensures q < |s.procs| && Next(s, Advance(q)).Some?
  {
    var steps :| Exec(Initial(n), steps) == Some(s);
    RunKeepsInv(n, steps);
    q := if s.ptlock.Some? then s.ptlock.value else if s.gslock.Some? then s.gslock.value else p;
    AtLocks(s, q);
  }

  // ----- a slot made twice -----

  lemma Extend(n: nat, s: State, step: Step)
    requires Reachable(n, s) && Next(s, step).Some?
    ensures Reachable(n, Next(s, step).value)
  {
    var steps :| Exec(Initial(n), steps) == Some(s);
    assert (steps + [step])[..|steps|] == steps;
    assert Exec(Initial(n), steps + [step]) == Next(s, step);
  }

  /** Nobody holds a lock and nobody was killed. */
  predicate Quiet(s: State) {
    s.gslock == None && s.ptlock == None && s.killed == {}
  }

  /** Process p, in front of gslock, runs its critical section. */
  lemma Enter(n: nat, s: State, p: nat, op: Op) returns (t: State)
    requires Reachable(n, s) && Quiet(s) && p < |s.procs| && s.procs[p].at == Acquire(op)
    ensures Reachable(n, t) && t == RunBody(Moved(s.(gslock := Some(p)), p, Body(op)), p, op)
  {
    hide RunBody;
    Extend(n, s, Advance(p));
    var a := Next(s, Advance(p)).value;
    Extend(n, a, Advance(p));
    t := Next(a, Advance(p)).value;
  }

  /** It leaves the lock. */
  lemma Exit(n: nat, s: State, p: nat) returns (t: State)
    requires Reachable(n, s) && p < |s.procs| && s.procs[p].at.Leave?
    ensures Reachable(n, t) && t == Moved(s.(gslock := None), p, Onward(s.procs[p].at))
  {
    Extend(n, s, Advance(p));
    t := Next(s, Advance(p)).value;
  }

  /** It goes to sleep. */
  lemma Sleeps(n: nat, s: State, p: nat) returns (t: State)
    requires Reachable(n, s) && p < |s.procs| && s.procs[p].at.SleepAcquire? && s.ptlock == None
    ensures Reachable(n, t) && t == Moved(s.(gslock := None), p, Asleep)
  {
    var a, b := s, s;
    Extend(n, s, Advance(p));
    a := Next(s, Advance(p)).value;
    Extend(n, a, Advance(p));
    b := Next(a, Advance(p)).value;
    Extend(n, b, Advance(p));
    t := Next(b, Advance(p)).value;
    assert t.procs == Moved(s, p, Asleep).procs;
  }

  /** It wakes the others. */
  lemma Wakes(n: nat, s: State, p: nat) returns (t: State)
    requires Reachable(n, s) && p < |s.procs| && s.procs[p].at.WakeAcquire? && s.ptlock == None
    ensures Reachable(n, t) && t == Moved(s.(procs := WakeAll(s.procs)), p, Leave(None))
  {
    Extend(n, s, Advance(p));
    var a := Next(s, Advance(p)).value;
    Extend(n, a, Advance(p));
    t := Next(a, Advance(p)).value;
    assert t.procs == Moved(s.(procs := WakeAll(s.procs)), p, Leave(None)).procs;
  }

  /** Woken, it is back in front of gslock. */
  lemma Resumes(n: nat, s: State, p: nat) returns (t: State)
    requires Reachable(n, s) && p < |s.procs| && s.procs[p].at.Runnable? && s.ptlock == None
    ensures Reachable(n, t) && t == Moved(s, p, Acquire(Recheck))
  {
    Extend(n, s, Advance(p));
    var a := Next(s, Advance(p)).value;
    Extend(n, a, Advance(p));
    t := Next(a, Advance(p)).value;
    assert t.procs == Moved(s, p, Acquire(Recheck)).procs;
  }

  /** Two processes at rest, the slot as given. */
  function Pair(a: Proc, b: Proc, named: bool, linked: bool, ref: int, waiting: bool, made: nat, clean: bool): State {
    State([a, b], {}, None, None, named, linked, ref, waiting, made, clean)
  }

  lemma Starts(n: nat, s: State, p: nat, op: Op) returns (t: State)
    requires Reachable(n, s) && p < |s.procs| && s.procs[p].at.Idle? && CallOk(s, p, op)
    ensures Reachable(n, t) && t == Called(s, p, op)
  {
    Extend(n, s, Call(p, op));
    t := Next(s, Call(p, op)).value;
  }

  /** Process 0 opens an unlinked slot: it is created. */
  lemma OpenFresh(b: Proc, named: bool, waiting: bool, made: nat, clean: bool) returns (t: State)
    requires Reachable(2, Pair(Proc(Idle, 0), b, named, false, 0, waiting, made, clean))
    ensures t == Pair(Proc(Idle, 1), b, true, true, 1, false, made + 1, t.clean)
    ensures Reachable(2, t)
  {
    hide Reachable, NobodyInside;
    var s := Pair(Proc(Idle, 0), b, named, false, 0, waiting, made, clean);
    t := Starts(2, s, 0, Open);
    t := Enter(2, t, 0, Open);
    assert t.procs == [Proc(Leave(Some(Create)), 0), b];
    t := Exit(2, t, 0);
    assert t.procs == [Proc(Acquire(Create), 0), b];
    t := Enter(2, t, 0, Create);
    assert t.procs == [Proc(Leave(None), 1), b];
    t := Exit(2, t, 0);
    assert t.procs == [Proc(Idle, 1), b];
  }

  /** Process 1 unlinks a slot that is open, and goes to sleep. */
  lemma UnlinkSleeps(a: Proc, clean: bool) returns (t: State)
    requires Reachable(2, Pair(a, Proc(Idle, 0), true, true, 1, false, 1, clean))
    ensures t == Pair(a, Proc(Asleep, 0), true, true, 1, true, 1, clean)
    ensures Reachable(2, t)
  {
    hide Reachable;
    t := Starts(2, Pair(a, Proc(Idle, 0), true, true, 1, false, 1, clean), 1, Find);
    t := Enter(2, t, 1, Find);
    assert t.procs == [a, Proc(Leave(Some(Unlink)), 0)];
    t := Exit(2, t, 1);
    assert t.procs == [a, Proc(Acquire(Unlink), 0)];
    t := Enter(2, t, 1, Unlink);
    assert t.procs == [a, Proc(SleepAcquire, 0)];
    t := Sleeps(2, t, 1);
    assert t.procs == [a, Proc(Asleep, 0)];
  }

  /** Process 0 closes it, which wakes process 1. */
  lemma CloseWakes(clean: bool) returns (t: State)
    requires Reachable(2, Pair(Proc(Idle, 1), Proc(Asleep, 0), true, true, 1, true, 1, clean))
    ensures t == Pair(Proc(Idle, 0), Proc(Runnable, 0), true, true, 0, true, 1, clean)
    ensures Reachable(2, t)
  {
    hide Reachable;
    t := Starts(2, Pair(Proc(Idle, 1), Proc(Asleep, 0), true, true, 1, true, 1, clean), 0, Close);
    t := Enter(2, t, 0, Close);
    assert t.procs == [Proc(WakeAcquire, 0), Proc(Asleep, 0)];
    t := Wakes(2, t, 0);
    assert t.procs == [Proc(Leave(None), 0), Proc(Runnable, 0)];
    t := Exit(2, t, 0);
    assert t.procs == [Proc(Idle, 0), Proc(Runnable, 0)];
  }

  /** Process 0 unlinks it as well, before process 1 has looked again. */
  lemma UnlinkPasses(clean: bool) returns (t: State)
    requires Reachable(2, Pair(Proc(Idle, 0), Proc(Runnable, 0), true, true, 0, true, 1, clean))
    ensures t == Pair(Proc(Idle, 0), Proc(Runnable, 0), true, false, 0, true, 1, clean)
    ensures Reachable(2, t)
  {
    hide Reachable;
    var b := Proc(Runnable, 0);
    t := Starts(2, Pair(Proc(Idle, 0), b, true, true, 0, true, 1, clean), 0, Find);
    t := Enter(2, t, 0, Find);
    assert t.procs == [Proc(Leave(Some(Unlink)), 0), b];
    t := Exit(2, t, 0);
    assert t.procs == [Proc(Acquire(Unlink), 0), b];
    t := Enter(2, t, 0, Unlink);
    assert t.procs == [Proc(Leave(None), 0), b];
    t := Exit(2, t, 0);
    assert t.procs == [Proc(Idle, 0), b];
  }

  /** Process 1 looks again, sees the slot open, and sleeps without its mark; the close
      that follows wakes nobody. */
  lemma SleepsOn(clean: bool) returns (t: State)
    requires Reachable(2, Pair(Proc(Idle, 1), Proc(Runnable, 0), true, true, 1, false, 2, clean))
    ensures t == Pair(Proc(Idle, 0), Proc(Asleep, 0), true, true, 0, false, 2, clean)
    ensures Reachable(2, t)
  {
    hide Reachable;
    var a := Proc(Idle, 1);
    t := Resumes(2, Pair(a, Proc(Runnable, 0), true, true, 1, false, 2, clean), 1);
    assert t.procs == [a, Proc(Acquire(Recheck), 0)];
    t := Enter(2, t, 1, Recheck);
    assert t.procs == [a, Proc(SleepAcquire, 0)];
    t := Sleeps(2, t, 1);
    assert t.procs == [a, Proc(Asleep, 0)];
    t := Starts(2, t, 0, Close);
    t := Enter(2, t, 0, Close);
    assert t.procs == [Proc(Leave(None), 0), Proc(Asleep, 0)];
    t := Exit(2, t, 0);
    assert t.procs == [Proc(Idle, 0), Proc(Asleep, 0)];
  }

  lemma TwoAtStart()
    ensures Reachable(2, Pair(Proc(Idle, 0), Proc(Idle, 0), false, false, 0, false, 0, true))
  {
    assert Exec(Initial(2), []) == Some(Initial(2));
    assert Initial(2).procs == [Proc(Idle, 0), Proc(Idle, 0)];
  }

  /** A name opened afresh while someone woken from sem_unlink has not yet looked again:
      the new semaphore clears his mark, and its last close does not wake him. */
  lemma SecondOpenLoses() returns (s: State)
    ensures Reachable(2, s) && Lost(s) && s.made == 2
  {
    hide Reachable;
    TwoAtStart();
    s := OpenFresh(Proc(Idle, 0), false, false, 0, true);
    s := UnlinkSleeps(Proc(Idle, 1), s.clean);
    s := CloseWakes(s.clean);
    s := UnlinkPasses(s.clean);
    s := OpenFresh(Proc(Runnable, 0), true, true, 1, s.clean);
    s := SleepsOn(s.clean);
    assert s.procs[1].at.Asleep?;
  }

  /** With at most k creations of the slot, no wakeup at the gate is ever lost exactly when k <= 1. */
  lemma NeverLostExactly(k: nat)
    ensures (forall n: nat, s: State | Reachable(n, s) && s.made <= k :: !Lost(s)) <==> k <= 1
  {
    if k <= 1 {
      forall n: nat, s: State | Reachable(n, s) && s.made <= k ensures !Lost(s) {
        var steps :| Exec(Initial(n), steps) == Some(s);
        RunKeepsInv(n, steps);
        if p: nat :| p < |s.procs| && s.procs[p].at.Asleep? && s.gslock == None {
          GateOpens(n, s, p);
        }
      }
    } else {
      var s := SecondOpenLoses();
    }
  }
}
