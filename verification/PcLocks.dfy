/** pc.c run on the semaphores themselves: every call goes lock by lock through Gate's and
    Sem's machines, which share ptable.lock. Each run of it is a run of Pc with waiting
    in between, and it finishes too. */
module PcLocks {
  import opened Blocks
  import opened Sums
  import Sem
  import Gate
  import Pc

  /** The semaphores in the order main opens them after waitc. */
  const BUFFA := 0
  const BUFFB := 1
  const TOTAL := 2
  const WRITE := 3

  /** pc says where each process is in the program; process 0 is the parent and process
      k + 1 child k. */
  datatype State = State(pc: Pc.State, gate: Gate.State, sems: seq<Sem.State>)

  /** Call enters the process's next call; Move goes one step on in the gate or in a
      semaphore; Local is a step of the program without a call. */
  datatype Step = Call(p: nat) | MoveGate(p: nat) | MoveSem(p: nat, i: nat) | Local(p: nat, k: nat)

  function Procs(c: Pc.Config): nat {
    c.Children() + 1
  }

  /** waitc when the parent has just opened it. */
  function Opened(n: nat): Gate.State {
    Gate.State(
      seq(n, p => Gate.Proc(Gate.Idle, if p == 0 then 1 else 0)), {}, None, None, true, true, 1, false, 1, true)
  }

  function Max(c: Pc.Config, i: nat): int {
    if i == TOTAL then c.Total() else if i == WRITE then 1 else Pc.MAX_MSG
  }

  function Count(s: Pc.State, i: nat): int {
    if i == BUFFA then s.buffa else if i == BUFFB then s.buffb else if i == TOTAL then s.total else s.write
  }

  function Initial(c: Pc.Config): State {
    State(Pc.Initial(c), Opened(Procs(c)),
      seq(4, i requires 0 <= i < 4 => Sem.Initial(Procs(c), Count(Pc.Initial(c), i), Max(c, i))))
  }

  // ----- what the program does next -----

  datatype Want = CallGate(section: Gate.Op) | CallSem(i: nat, op: Sem.Op) | Itself | Nothing

  function WantOf(c: Pc.Config, k: Pc.Child): Want {
    match k
    case Gate(_) => CallGate(Gate.Close)
    case Unlink(_) => CallGate(Gate.Find)
    case Producing(made, WaitA) => if made == c.msgs then Itself else CallSem(BUFFA, Sem.Wait)
    case Producing(_, WaitWrite) => CallSem(WRITE, Sem.Wait)
    case Producing(_, Writing) => CallSem(WRITE, Sem.Post)
    case Producing(_, PostB) => CallSem(BUFFB, Sem.Post)
    case Consuming(_, Try) => CallSem(TOTAL, Sem.TryWait)
    case Consuming(_, WaitB) => CallSem(BUFFB, Sem.Wait)
    case Consuming(_, WaitWriteC) => CallSem(WRITE, Sem.Wait)
    case Consuming(_, WritingC) => CallSem(WRITE, Sem.Post)
    case Consuming(_, PostA) => CallSem(BUFFA, Sem.Post)
    case _ => Nothing
  }

  /** fork gives child i the open semaphores in semdup. */
  function WantOfParent(c: Pc.Config, parent: Pc.Parent): Want {
    match parent
    case Forking(i) => if i < c.Children() then CallGate(Gate.Dup(i + 1)) else Itself
    case Closing => CallGate(Gate.Close)
    case _ => Itself
  }

  function Wants(c: Pc.Config, s: Pc.State, p: nat): Want
    requires p <= |s.kids|
  {
    if p == 0 then WantOfParent(c, s.parent) else WantOf(c, s.kids[p - 1])
  }

  function PcStep(p: nat, k: nat): Pc.Step {
    if p == 0 then Pc.ParentStep(k) else Pc.ChildStep(p - 1)
  }

  // ----- the machine -----

  predicate Shaped(s: State, n: nat) {
    && n == |s.pc.kids| + 1 == |s.gate.procs| && |s.sems| == 4
    && forall i | 0 <= i < 4 :: |s.sems[i].procs| == n
  }

  predicate AtRest(s: State, p: nat) {
    && p < |s.gate.procs| && s.gate.procs[p].at.Idle?
    && forall i | 0 <= i < |s.sems| :: p < |s.sems[i].procs| && s.sems[i].procs[p].Idle?
  }

  /** Nobody holds ptable.lock. */
  predicate PtFree(s: State) {
    s.gate.ptlock == None && forall i | 0 <= i < |s.sems| :: s.sems[i].ptlock == None
  }

  /** The step at which a call takes effect: where Pc's one step stands. */
  predicate GateActs(g: Gate.State, p: nat)
    requires p < |g.procs|
  {
    match g.procs[p].at
    case Body(op) => op.Close? || op.Dup? || ((op.Unlink? || op.Recheck?) && g.ref == 0)
    case _ => false
  }

  predicate SemActs(q: Sem.State, p: nat)
    requires p < |q.procs|
  {
    match q.procs[p]
    case Body(op) => op.TryWait? || op.Post? || (op.Wait? && q.count > 0)
    case _ => false
  }

  predicate GateTakesPt(at: Gate.At) {
    at.WakeAcquire? || at.SleepAcquire? || at.Runnable?
  }

  predicate SemTakesPt(q: Sem.Proc) {
    q.WakeAcquire? || q.SleepAcquire? || q.Runnable?
  }

  /** The program's state after process p's step, the same if that step were not there. */
  function Acted(c: Pc.Config, s: Pc.State, p: nat): Pc.State {
    match Pc.Next(c, s, PcStep(p, 0))
    case None => s
    case Some(t) => t
  }

  function Next(c: Pc.Config, s: State, step: Step): Option<State> {
    if !Shaped(s, Procs(c)) || step.p >= Procs(c) then None else
      var p := step.p;
      match step
      case Call(_) =>
        if !AtRest(s, p) then None else
        (match Wants(c, s.pc, p)
         case CallGate(op) =>
           (match Gate.Next(s.gate, Gate.Call(p, op))
            case None => None
            case Some(g) => Some(s.(gate := g)))
         case CallSem(i, op) =>
           if i >= 4 then None else
           (match Sem.Next(s.sems[i], Sem.Call(p, op))
            case None => None
            case Some(q) => Some(s.(sems := s.sems[i := q])))
         case _ => None)
      case MoveGate(_) =>
        if GateTakesPt(s.gate.procs[p].at) && !PtFree(s) then None else
        (match Gate.Next(s.gate, Gate.Advance(p))
         case None => None
         case Some(g) => Some(s.(gate := g, pc := if GateActs(s.gate, p) then Acted(c, s.pc, p) else s.pc)))
      case MoveSem(_, i) =>
        if i >= 4 || (SemTakesPt(s.sems[i].procs[p]) && !PtFree(s)) then None else
        (match Sem.Next(s.sems[i], Sem.Advance(p))
         case None => None
         case Some(q) =>
           Some(s.(sems := s.sems[i := q], pc := if SemActs(s.sems[i], p) then Acted(c, s.pc, p) else s.pc)))
      case Local(_, k) =>
        if !AtRest(s, p) || Wants(c, s.pc, p) != Itself then None else
        (match Pc.Next(c, s.pc, PcStep(p, k))
         case None => None
         case Some(t) => Some(s.(pc := t)))
  }

  // ----- the invariant -----

  /** The call a process is in whose effect is still to come. */
  function GatePending(at: Gate.At): Option<Gate.Op> {
    match at
    case Acquire(op) => Some(if op.Unlink? || op.Recheck? then Gate.Find else op)
    case Body(op) => Some(if op.Unlink? || op.Recheck? then Gate.Find else op)
    case Leave(Some(op)) => Some(if op.Unlink? then Gate.Find else op)
    case SleepAcquire | SleepRelease | SleepSet | Asleep | Runnable | Resumed => Some(Gate.Find)
    case _ => None
  }

  function SemPending(q: Sem.Proc): Option<Sem.Op> {
    match q
    case Acquire(op) => Some(op)
    case Body(op) => Some(op)
    case SleepAcquire | SleepRelease | SleepSet | Asleep | Runnable | Resumed => Some(Sem.Wait)
    case _ => None
  }

  /** pc.c never resets a semaphore. */
  predicate Plain(q: Sem.Proc) {
    match q
    case WakeAcquire(op) => !op.SetCount?
    case WakeRun(op) => !op.SetCount?
    case Leave(op) => !op.SetCount?
    case _ => true
  }

  /** The gate agrees with the program: nobody was killed, it was created once, and a
      process in a call is where the program calls it. */
  ghost predicate GateOk(c: Pc.Config, s: Pc.State, g: Gate.State) {
    && Gate.Inv(g) && g.clean && g.named && g.killed == {} && g.ref == s.gateRef && |g.procs| == |s.kids| + 1
    && forall p | 0 <= p < |g.procs| :: GateProcOk(c, s, g.procs[p], p)
  }

  /** Who has not yet closed waitc. */
  predicate HoldsGate(s: Pc.State, p: nat)
    requires p <= |s.kids|
  {
    if p == 0 then s.parent.Forking? || s.parent.Closing? else s.kids[p - 1].Gate?
  }

  /** Who is to close or to duplicate a descriptor has one. */
  predicate GateProcOk(c: Pc.Config, s: Pc.State, q: Gate.Proc, p: nat)
    requires p <= |s.kids|
  {
    && (GatePending(q.at).Some? ==> Wants(c, s, p) == CallGate(GatePending(q.at).value))
    && (HoldsGate(s, p) && GatePending(q.at) != Some(Gate.Close) ==> q.held > 0)
  }

  ghost predicate SemOk(c: Pc.Config, s: Pc.State, q: Sem.State, i: nat) {
    && Sem.Inv(q) && q.killed == {} && q.count == Count(s, i) && q.maxVal == Max(c, i) && |q.procs| == |s.kids| + 1
    && forall p | 0 <= p < |q.procs| :: SemProcOk(c, s, q.procs[p], p, i)
  }

  predicate SemProcOk(c: Pc.Config, s: Pc.State, q: Sem.Proc, p: nat, i: nat)
    requires p <= |s.kids|
  {
    Plain(q) && (SemPending(q).Some? ==> Wants(c, s, p) == CallSem(i, SemPending(q).value))
  }

  ghost predicate Inv(c: Pc.Config, s: State) {
    && Shaped(s, Procs(c)) && Pc.Inv(c, s.pc) && GateOk(c, s.pc, s.gate)
    && forall i | 0 <= i < 4 :: SemOk(c, s.pc, s.sems[i], i)
  }

  // ----- the effect of a call is Pc's step -----

  function CountAfter(op: Sem.Op, count: int, max: int): int {
    match op
    case Wait => count - 1
    case TryWait => if count > 0 then count - 1 else count
    case Post => if count == max then count else count + 1
    case _ => count
  }

  /** Process r, if it is in a call or about to make one, still is. */
  predicate Follows(c: Pc.Config, s: Pc.State, t: Pc.State, r: nat)
    requires r <= |s.kids| == |t.kids|
  {
    && (Wants(c, s, r).CallGate? || Wants(c, s, r).CallSem? ==> Wants(c, t, r) == Wants(c, s, r))
    && (HoldsGate(t, r) ==> HoldsGate(s, r))
  }

  /** So it is for everyone but process p. */
  predicate OthersFollow(c: Pc.Config, s: Pc.State, t: Pc.State, p: nat) {
    |t.kids| == |s.kids| && forall r | 0 <= r <= |s.kids| && r != p :: Follows(c, s, t, r)
  }

  predicate SameCounts(s: Pc.State, t: Pc.State) {
    forall j | 0 <= j < 4 :: Count(t, j) == Count(s, j)
  }

  /** A semaphore call that takes effect is the child's step, and moves that count alone. */
  lemma SemEffect(c: Pc.Config, s: Pc.State, p: nat, i: nat, op: Sem.Op)
    requires p <= |s.kids| && i < 4 && Wants(c, s, p) == CallSem(i, op) && (op.Wait? ==> Count(s, i) > 0)
    ensures Pc.Next(c, s, PcStep(p, 0)) == Some(Acted(c, s, p))
    ensures var t := Acted(c, s, p);
      && (forall j | 0 <= j < 4 ::
           Count(t, j) == if j == i then CountAfter(op, Count(s, i), Max(c, i)) else Count(s, j))
      && t.gateRef == s.gateRef && OthersFollow(c, s, t, p) && !HoldsGate(t, p)
  {
  }

  lemma CloseEffect(c: Pc.Config, s: Pc.State, p: nat)
    requires p <= |s.kids| && Wants(c, s, p) == CallGate(Gate.Close)
    ensures Pc.Next(c, s, PcStep(p, 0)) == Some(Acted(c, s, p))
    ensures var t := Acted(c, s, p);
      SameCounts(s, t) && t.gateRef == s.gateRef - 1 && OthersFollow(c, s, t, p) && !HoldsGate(t, p)
  {
  }

  lemma FindEffect(c: Pc.Config, s: Pc.State, p: nat)
    requires p <= |s.kids| && Wants(c, s, p) == CallGate(Gate.Find) && s.gateRef == 0
    ensures Pc.Next(c, s, PcStep(p, 0)) == Some(Acted(c, s, p))
    ensures var t := Acted(c, s, p);
      SameCounts(s, t) && t.gateRef == s.gateRef && OthersFollow(c, s, t, p) && !HoldsGate(t, p)
  {
  }

  /** fork: the child it makes was nowhere, and is now to close waitc. */
  lemma DupEffect(c: Pc.Config, s: Pc.State, p: nat, q: nat)
    requires Pc.Inv(c, s) && p <= |s.kids| && Wants(c, s, p) == CallGate(Gate.Dup(q))
    ensures Pc.Next(c, s, PcStep(p, 0)) == Some(Acted(c, s, p)) && p == 0 && 1 <= q <= |s.kids|
    ensures var t := Acted(c, s, p);
      && SameCounts(s, t) && t.gateRef == s.gateRef + 1 && |t.kids| == |s.kids| && HoldsGate(s, 0)
      && Wants(c, s, q) == Nothing && forall r | 0 <= r <= |s.kids| && r != p && r != q :: Follows(c, s, t, r)
  {
    assert Pc.KidOk(c, s, s.parent.i);
  }

  lemma LocalEffect(c: Pc.Config, s: Pc.State, p: nat, k: nat)
    requires p <= |s.kids| && Wants(c, s, p) == Itself && Pc.Next(c, s, PcStep(p, k)).Some?
    ensures var t := Pc.Next(c, s, PcStep(p, k)).value;
      SameCounts(s, t) && t.gateRef == s.gateRef && OthersFollow(c, s, t, p) && Follows(c, s, t, p)
  {
  }

  // ----- a step of one object -----

  predicate PlainOp(op: Sem.Op) {
    op.Wait? || op.TryWait? || op.Post?
  }

  /** Short of its effect a step of a semaphore changes no count and nobody's call. */
  lemma SemStays(q: Sem.State, p: nat)
    requires p < |q.procs| && Sem.Next(q, Sem.Advance(p)).Some? && !SemActs(q, p) && q.killed == {}
    requires Plain(q.procs[p]) && (SemPending(q.procs[p]).Some? ==> PlainOp(SemPending(q.procs[p]).value))
    ensures var t := Sem.Next(q, Sem.Advance(p)).value;
      && t.count == q.count && t.maxVal == q.maxVal && t.killed == q.killed && |t.procs| == |q.procs|
      && forall r | 0 <= r < |q.procs| ::
           SemPending(t.procs[r]) == SemPending(q.procs[r]) && (Plain(q.procs[r]) ==> Plain(t.procs[r]))
  {
  }

  /** At its effect the call is over for this process. */
  lemma SemGoes(q: Sem.State, p: nat)
    requires p < |q.procs| && SemActs(q, p)
    ensures var t := Sem.Next(q, Sem.Advance(p)); t.Some? && var w := t.value;
      && w.count == CountAfter(q.procs[p].op, q.count, q.maxVal) && w.maxVal == q.maxVal && w.killed == q.killed
      && |w.procs| == |q.procs| && SemPending(w.procs[p]) == None && Plain(w.procs[p])
      && forall r | 0 <= r < |q.procs| && r != p :: w.procs[r] == q.procs[r]
  {
  }

  predicate PlainSection(op: Gate.Op) {
    op.Close? || op.Dup? || op.Find?
  }

  predicate GateSame(g: Gate.State, h: Gate.State) {
    h.ref == g.ref && h.named == g.named && h.clean == g.clean && h.killed == g.killed && |h.procs| == |g.procs|
  }

  lemma GateStays(g: Gate.State, p: nat)
    requires p < |g.procs| && Gate.Next(g, Gate.Advance(p)).Some? && !GateActs(g, p) && g.killed == {} && g.named
    requires GatePending(g.procs[p].at).Some? ==> PlainSection(GatePending(g.procs[p].at).value)
    ensures var h := Gate.Next(g, Gate.Advance(p)).value;
      && GateSame(g, h) && forall r | 0 <= r < |g.procs| ::
           h.procs[r].held == g.procs[r].held && GatePending(h.procs[r].at) == GatePending(g.procs[r].at)
  {
    if g.procs[p].at.Body? {
      BodyStays(g, p, g.procs[p].at.op);
    } else {
      hide Gate.RunBody;
      Gate.OthersStay(g, p);
      Gate.KeepsSlot(g, p);
      Gate.MovesOnward(g, p);
    }
  }

  /** Find goes on to Unlink, and that and Recheck go to sleep. */
  lemma BodyStays(g: Gate.State, p: nat, op: Gate.Op)
    requires p < |g.procs| && g.procs[p].at == Gate.Body(op) && !GateActs(g, p) && g.killed == {} && g.named
    requires op.Find? || op.Unlink? || op.Recheck?
    ensures var h := Gate.RunBody(g, p, op);
      && GateSame(g, h) && (op.Find? ==> h.procs[p].at == Gate.Leave(Some(Gate.Unlink)))
      && (!op.Find? ==> h.procs[p].at.SleepAcquire?) && h.procs == g.procs[p := g.procs[p].(at := h.procs[p].at)]
  {
  }

  /** What a section that takes effect leaves. */
  lemma GateGoes(g: Gate.State, p: nat)
    requires p < |g.procs| && GateActs(g, p)
    ensures var op, h := g.procs[p].at.op, Gate.RunBody(g, p, g.procs[p].at.op);
      && Gate.Next(g, Gate.Advance(p)) == Some(h) && GatePending(h.procs[p].at) == None
      && GateSame(g.(ref := h.ref), h) && (!op.Dup? || op.q < |g.procs| ==>
           h.ref == if op.Close? then g.ref - 1 else if op.Dup? then g.ref + 1 else g.ref)
      && forall r | 0 <= r < |g.procs| ::
           && h.procs[r].held == g.procs[r].held + (if op == Gate.Dup(r) then 1 else 0)
           && (r != p ==> h.procs[r].at == g.procs[r].at)
  {
  }

  // ----- every step keeps the invariant -----

  /** An object the step does not touch. */
  lemma SemUntouched(c: Pc.Config, s: Pc.State, t: Pc.State, q: Sem.State, i: nat, p: nat)
    requires SemOk(c, s, q, i) && |t.kids| == |s.kids| && Count(t, i) == Count(s, i) && p <= |s.kids|
    requires forall r | 0 <= r <= |s.kids| ::
      Wants(c, t, r) == Wants(c, s, r) || !Wants(c, s, r).CallSem? || Wants(c, s, r).i != i
    ensures SemOk(c, t, q, i)
  {
    forall r | 0 <= r < |q.procs| ensures SemProcOk(c, t, q.procs[r], r, i) {
      assert SemProcOk(c, s, q.procs[r], r, i);
    }
  }

  lemma GateUntouched(c: Pc.Config, s: Pc.State, t: Pc.State, g: Gate.State, p: nat)
    requires GateOk(c, s, g) && OthersFollow(c, s, t, p) && t.gateRef == s.gateRef && p <= |s.kids|
    requires !Wants(c, s, p).CallGate? && (HoldsGate(t, p) ==> HoldsGate(s, p))
    ensures GateOk(c, t, g)
  {
    forall r | 0 <= r < |g.procs| ensures GateProcOk(c, t, g.procs[r], r) {
      assert GateProcOk(c, s, g.procs[r], r);
      assert r != p ==> Follows(c, s, t, r);
    }
  }

  lemma WantsPlain(c: Pc.Config, s: Pc.State, p: nat)
    requires p <= |s.kids|
    ensures match Wants(c, s, p)
      case CallGate(op) => PlainSection(op)
      case CallSem(i, op) => i < 4 && PlainOp(op) && p > 0
      case _ => true
  {
  }

  lemma SemMoveStays(c: Pc.Config, s: Pc.State, q: Sem.State, i: nat, p: nat)
    requires SemOk(c, s, q, i) && p <= |s.kids| && Sem.Next(q, Sem.Advance(p)).Some? && !SemActs(q, p)
    ensures SemOk(c, s, Sem.Next(q, Sem.Advance(p)).value, i)
  {
    hide Sem.Next, Sem.Inv, SemPending, Wants;
    assert SemProcOk(c, s, q.procs[p], p, i);
    WantsPlain(c, s, p);
    SemStays(q, p);
    Sem.StepKeepsInv(q, Sem.Advance(p));
    var t := Sem.Next(q, Sem.Advance(p)).value;
    forall r | 0 <= r < |t.procs| ensures SemProcOk(c, s, t.procs[r], r, i) {
      assert SemProcOk(c, s, q.procs[r], r, i);
    }
  }

  lemma SemMoveGoes(c: Pc.Config, s: Pc.State, q: Sem.State, i: nat, p: nat)
    requires SemOk(c, s, q, i) && i < 4 && p <= |s.kids| && SemActs(q, p)
    ensures Pc.Next(c, s, PcStep(p, 0)) == Some(Acted(c, s, p)) && Sem.Next(q, Sem.Advance(p)).Some?
    ensures SemOk(c, Acted(c, s, p), Sem.Next(q, Sem.Advance(p)).value, i)
    ensures Wants(c, s, p) == CallSem(i, q.procs[p].op)
  {
    hide Sem.Next, Sem.Inv, Wants, Acted, HoldsGate, Count;
    assert SemProcOk(c, s, q.procs[p], p, i);
    SemEffect(c, s, p, i, q.procs[p].op);
    SemGoes(q, p);
    Sem.StepKeepsInv(q, Sem.Advance(p));
    var t, w := Acted(c, s, p), Sem.Next(q, Sem.Advance(p)).value;
    forall r | 0 <= r < |w.procs| ensures SemProcOk(c, t, w.procs[r], r, i) {
      assert SemProcOk(c, s, q.procs[r], r, i);
      assert r != p ==> Follows(c, s, t, r);
    }
  }

  lemma MoveSemKeepsInv(c: Pc.Config, s: State, p: nat, i: nat)
    requires Inv(c, s) && Next(c, s, MoveSem(p, i)).Some?
    ensures Inv(c, Next(c, s, MoveSem(p, i)).value)
    ensures i < 4 && p < Procs(c) && (SemActs(s.sems[i], p) ==> Pc.Next(c, s.pc, PcStep(p, 0)).Some?)
  {
    hide Sem.Next, Pc.Inv, GateOk, Wants, Acted, HoldsGate, Count;
    var t := Next(c, s, MoveSem(p, i)).value;
    var q := s.sems[i];
    assert SemOk(c, s.pc, q, i);
    if SemActs(q, p) {
      SemMoveGoes(c, s.pc, q, i, p);
      var op := q.procs[p].op;
      SemEffect(c, s.pc, p, i, op);
      Pc.StepKeepsInv(c, s.pc, PcStep(p, 0));
      GateUntouched(c, s.pc, t.pc, s.gate, p);
      forall j | 0 <= j < 4 ensures SemOk(c, t.pc, t.sems[j], j) {
        if j != i {
          AllFollow(c, s.pc, t.pc, p, j);
          SemUntouched(c, s.pc, t.pc, s.sems[j], j, p);
        }
      }
    } else {
      SemMoveStays(c, s.pc, q, i, p);
    }
  }

  /** A semaphore nobody's call moves away from. */
  lemma AllFollow(c: Pc.Config, s: Pc.State, t: Pc.State, p: nat, j: nat)
    requires p <= |s.kids| && OthersFollow(c, s, t, p) && (!Wants(c, s, p).CallSem? || Wants(c, s, p).i != j)
    ensures forall r | 0 <= r <= |s.kids| ::
      Wants(c, t, r) == Wants(c, s, r) || !Wants(c, s, r).CallSem? || Wants(c, s, r).i != j
  {
    forall r | 0 <= r <= |s.kids|
      ensures Wants(c, t, r) == Wants(c, s, r) || !Wants(c, s, r).CallSem? || Wants(c, s, r).i != j
    {
      assert r != p ==> Follows(c, s, t, r);
    }
  }

  lemma GateMoveStays(c: Pc.Config, s: Pc.State, g: Gate.State, p: nat)
    requires GateOk(c, s, g) && p <= |s.kids| && Gate.Next(g, Gate.Advance(p)).Some? && !GateActs(g, p)
    ensures GateOk(c, s, Gate.Next(g, Gate.Advance(p)).value)
  {
    hide Gate.Next, Gate.Inv, GatePending, Wants, HoldsGate;
    assert GateProcOk(c, s, g.procs[p], p);
    WantsPlain(c, s, p);
    GateStays(g, p);
    Gate.StepKeepsInv(g, Gate.Advance(p));
    var h := Gate.Next(g, Gate.Advance(p)).value;
    forall r | 0 <= r < |h.procs| ensures GateProcOk(c, s, h.procs[r], r) {
      assert GateProcOk(c, s, g.procs[r], r);
    }
  }

  /** What the section means to the program. */
  lemma GateEffect(c: Pc.Config, s: Pc.State, g: Gate.State, p: nat)
    requires Pc.Inv(c, s) && GateOk(c, s, g) && p <= |s.kids| && GateActs(g, p)
    ensures Pc.Next(c, s, PcStep(p, 0)) == Some(Acted(c, s, p)) && Wants(c, s, p).CallGate?
    ensures var t, op := Acted(c, s, p), g.procs[p].at.op;
      && |t.kids| == |s.kids| && SameCounts(s, t)
      && t.gateRef == (if op.Close? then s.gateRef - 1 else if op.Dup? then s.gateRef + 1 else s.gateRef)
      && (op.Dup? ==> p == 0 && 1 <= op.q <= |s.kids| && Wants(c, s, op.q) == Nothing && HoldsGate(s, 0))
      && (!op.Dup? ==> !HoldsGate(t, p))
      && forall r | 0 <= r <= |s.kids| && r != p && op != Gate.Dup(r) :: Follows(c, s, t, r)
  {
    hide Wants, Acted, HoldsGate, Count, Follows;
    assert GateProcOk(c, s, g.procs[p], p);
    match g.procs[p].at.op
    case Close => CloseEffect(c, s, p);
    case Dup(q) => DupEffect(c, s, p, q);
    case _ => FindEffect(c, s, p);
  }

  lemma GateMoveGoes(c: Pc.Config, s: Pc.State, g: Gate.State, p: nat)
    requires Pc.Inv(c, s) && GateOk(c, s, g) && p <= |s.kids| && GateActs(g, p)
    ensures Gate.Next(g, Gate.Advance(p)).Some?
    ensures GateOk(c, Acted(c, s, p), Gate.Next(g, Gate.Advance(p)).value)
  {
    hide Gate.Next, Gate.Inv, Gate.RunBody, Wants, Acted, HoldsGate, Count;
    var op := g.procs[p].at.op;
    GateEffect(c, s, g, p);
    GateGoes(g, p);
    Gate.StepKeepsInv(g, Gate.Advance(p));
    var t, h := Acted(c, s, p), Gate.Next(g, Gate.Advance(p)).value;
    forall r | 0 <= r < |h.procs| ensures GateProcOk(c, t, h.procs[r], r) {
      assert GateProcOk(c, s, g.procs[r], r);
      assert r != p && op != Gate.Dup(r) ==> Follows(c, s, t, r);
    }
  }

  lemma MoveGateKeepsInv(c: Pc.Config, s: State, p: nat)
    requires Inv(c, s) && Next(c, s, MoveGate(p)).Some?
    ensures Inv(c, Next(c, s, MoveGate(p)).value)
    ensures p < Procs(c) && (GateActs(s.gate, p) ==> Pc.Next(c, s.pc, PcStep(p, 0)).Some?)
  {
    hide Gate.Next, Gate.Inv, Pc.Inv, Wants, Acted, HoldsGate, Count;
    var t := Next(c, s, MoveGate(p)).value;
    if GateActs(s.gate, p) {
      GateMoveGoes(c, s.pc, s.gate, p);
      GateEffect(c, s.pc, s.gate, p);
      Pc.StepKeepsInv(c, s.pc, PcStep(p, 0));
      var op := s.gate.procs[p].at.op;
      forall j | 0 <= j < 4 ensures SemOk(c, t.pc, t.sems[j], j) {
        forall r | 0 <= r <= |s.pc.kids|
          ensures Wants(c, t.pc, r) == Wants(c, s.pc, r) || !Wants(c, s.pc, r).CallSem? || Wants(c, s.pc, r).i != j
        {
          assert r != p && op != Gate.Dup(r) ==> Follows(c, s.pc, t.pc, r);
        }
        assert SemOk(c, s.pc, s.sems[j], j);
        SemUntouched(c, s.pc, t.pc, s.sems[j], j, p);
      }
    } else {
      GateMoveStays(c, s.pc, s.gate, p);
    }
  }

  lemma CallKeepsInv(c: Pc.Config, s: State, p: nat)
    requires Inv(c, s) && Next(c, s, Call(p)).Some?
    ensures Inv(c, Next(c, s, Call(p)).value)
  {
    hide Pc.Inv, Wants, HoldsGate, Count;
    var t := Next(c, s, Call(p)).value;
    match Wants(c, s.pc, p)
    case CallGate(op) =>
      WantsPlain(c, s.pc, p);
      CallGateKeeps(c, s.pc, s.gate, p, op);
    case CallSem(i, op) =>
      WantsPlain(c, s.pc, p);
      assert SemOk(c, s.pc, s.sems[i], i);
      CallSemKeeps(c, s.pc, s.sems[i], i, p, op);
    case _ =>
  }

  lemma CallGateKeeps(c: Pc.Config, s: Pc.State, g: Gate.State, p: nat, op: Gate.Op)
    requires GateOk(c, s, g) && p <= |s.kids| && Wants(c, s, p) == CallGate(op) && PlainSection(op)
    requires Gate.Next(g, Gate.Call(p, op)).Some?
    ensures GateOk(c, s, Gate.Next(g, Gate.Call(p, op)).value)
  {
    hide Gate.Inv, Wants, HoldsGate;
    Gate.StepKeepsInv(g, Gate.Call(p, op));
    var h := Gate.Next(g, Gate.Call(p, op)).value;
    forall r | 0 <= r < |h.procs| ensures GateProcOk(c, s, h.procs[r], r) {
      assert GateProcOk(c, s, g.procs[r], r);
    }
  }

  lemma CallSemKeeps(c: Pc.Config, s: Pc.State, q: Sem.State, i: nat, p: nat, op: Sem.Op)
    requires SemOk(c, s, q, i) && p <= |s.kids| && Wants(c, s, p) == CallSem(i, op) && PlainOp(op)
    requires Sem.Next(q, Sem.Call(p, op)).Some?
    ensures SemOk(c, s, Sem.Next(q, Sem.Call(p, op)).value, i)
  {
    hide Sem.Inv, Wants;
    Sem.StepKeepsInv(q, Sem.Call(p, op));
    var w := Sem.Next(q, Sem.Call(p, op)).value;
    forall r | 0 <= r < |w.procs| ensures SemProcOk(c, s, w.procs[r], r, i) {
      assert SemProcOk(c, s, q.procs[r], r, i);
    }
  }

  lemma LocalKeepsInv(c: Pc.Config, s: State, p: nat, k: nat)
    requires Inv(c, s) && Next(c, s, Local(p, k)).Some?
    ensures Inv(c, Next(c, s, Local(p, k)).value)
  {
    hide Pc.Inv, Pc.Next, GateOk, SemOk, Wants, HoldsGate, Count;
    var t := Next(c, s, Local(p, k)).value;
    LocalEffect(c, s.pc, p, k);
    Pc.StepKeepsInv(c, s.pc, PcStep(p, k));
    GateUntouched(c, s.pc, t.pc, s.gate, p);
    forall j | 0 <= j < 4 ensures SemOk(c, t.pc, s.sems[j], j) {
      AllFollow(c, s.pc, t.pc, p, j);
      SemUntouched(c, s.pc, t.pc, s.sems[j], j, p);
    }
  }

  lemma StepKeepsInv(c: Pc.Config, s: State, step: Step)
    requires Inv(c, s) && Next(c, s, step).Some?
    ensures Inv(c, Next(c, s, step).value)
  {
    hide Next, Inv;
    match step
    case Call(p) => CallKeepsInv(c, s, p);
    case MoveGate(p) => MoveGateKeepsInv(c, s, p);
    case MoveSem(p, i) => MoveSemKeepsInv(c, s, p, i);
    case Local(p, k) => LocalKeepsInv(c, s, p, k);
  }

  // ----- the start -----

  lemma StartIsReached(n: nat)
    ensures Gate.Reachable(n, Gate.Initial(n))
  {
    assert Gate.Exec(Gate.Initial(n), []) == Some(Gate.Initial(n));
  }

  lemma MadeOnce(n: nat, t: Gate.State)
    requires Gate.Reachable(n, t) && t.made == 1
    ensures t.clean && Gate.Inv(t)
  {
    var steps :| Gate.Exec(Gate.Initial(n), steps) == Some(t);
    Gate.RunKeepsInv(n, steps);
  }

  /** waitc as the program starts with it is the gate after the parent's sem_open. */
  lemma OpenedIsReached(n: nat)
    requires n > 0
    ensures Gate.Reachable(n, Opened(n))
  {
    hide Gate.NobodyInside, Gate.Reachable, Gate.Inv;
    assert Gate.Reachable(n, Gate.Initial(n)) by { StartIsReached(n); }
    var t := Gate.Starts(n, Gate.Initial(n), 0, Gate.Open);
    t := Gate.Enter(n, t, 0, Gate.Open);
    t := Gate.Exit(n, t, 0);
    t := Gate.Enter(n, t, 0, Gate.Create);
    t := Gate.Exit(n, t, 0);
    assert t.procs == Opened(n).procs;
    MadeOnce(n, t);
  }

  lemma OpenedInv(n: nat)
    requires n > 0
    ensures Gate.Inv(Opened(n))
  {
    OpenedIsReached(n);
    MadeOnce(n, Opened(n));
  }

  lemma InitialInv(c: Pc.Config)
    requires c.Ok()
    ensures Inv(c, Initial(c))
  {
    hide Pc.Inv, Gate.Inv;
    Pc.InitialInv(c);
    OpenedInv(Procs(c));
    var s := Initial(c);
    forall i | 0 <= i < 4 ensures SemOk(c, s.pc, s.sems[i], i) {
    }
  }

  // ----- runs -----

  function Exec(c: Pc.Config, steps: seq<Step>): Option<State> {
    if steps == [] then Some(Initial(c)) else
      match Exec(c, steps[..|steps| - 1])
      case None => None
      case Some(s) => Next(c, s, steps[|steps| - 1])
  }

  /** The steps at which the program gets on. */
  predicate TakesEffect(s: State, step: Step) {
    match step
    case Call(_) => false
    case MoveGate(p) => p < |s.gate.procs| && GateActs(s.gate, p)
    case MoveSem(p, i) => i < |s.sems| && p < |s.sems[i].procs| && SemActs(s.sems[i], p)
    case Local(_, _) => true
  }

  function EffectOf(step: Step): Pc.Step {
    PcStep(step.p, if step.Local? then step.k else 0)
  }

  /** Every step is the program's step at that place, or waiting that changes nothing in the program. */
  lemma StepRefines(c: Pc.Config, s: State, step: Step)
    requires Inv(c, s) && Next(c, s, step).Some?
    ensures var t := Next(c, s, step).value;
      if TakesEffect(s, step) then Pc.Next(c, s.pc, EffectOf(step)) == Some(t.pc) else t.pc == s.pc
  {
    hide Inv, Pc.Next, Gate.Next, Sem.Next;
    match step
    case MoveGate(p) => MoveGateKeepsInv(c, s, p);
    case MoveSem(p, i) => MoveSemKeepsInv(c, s, p, i);
    case _ =>
  }

  /** Every run on the semaphores is a run of the program. */
  lemma {:induction false} RunRefines(c: Pc.Config, steps: seq<Step>) returns (abs: seq<Pc.Step>)
    requires c.Ok() && Exec(c, steps).Some?
    ensures Inv(c, Exec(c, steps).value) && Pc.Exec(c, abs) == Some(Exec(c, steps).value.pc) && |abs| <= |steps|
  {
    hide Inv, Next, Pc.Next, TakesEffect;
    if steps == [] {
      InitialInv(c);
      abs := [];
    } else {
      var front, step := steps[..|steps| - 1], steps[|steps| - 1];
      var s := Exec(c, front).value;
      abs := RunRefines(c, front);
      StepKeepsInv(c, s, step);
      StepRefines(c, s, step);
      if TakesEffect(s, step) {
        assert (abs + [EffectOf(step)])[..|abs|] == abs;
        abs := abs + [EffectOf(step)];
      }
    }
  }

  // ----- who is blocked -----

  /** Asleep at the gate with its lock free: waitc is still open, so the program's step is
      blocked too. */
  lemma GateBlocked(c: Pc.Config, s: Pc.State, g: Gate.State, p: nat, k: nat)
    requires GateOk(c, s, g) && p <= |s.kids| && g.gslock == None && g.procs[p].at.Asleep?
    ensures s.gateRef > 0 && Pc.Next(c, s, PcStep(p, k)) == None
  {
    assert GateProcOk(c, s, g.procs[p], p);
    assert Gate.Inside(g.procs[p].at);
  }

  /** Asleep on a semaphore whose lock is free: its count is 0, so the program's step is
      blocked too. */
  lemma SemBlocked(c: Pc.Config, s: Pc.State, q: Sem.State, i: nat, p: nat, k: nat)
    requires SemOk(c, s, q, i) && p <= |s.kids| && i < 4 && q.sslock == None && q.procs[p].Asleep?
    ensures Count(s, i) == 0 && Pc.Next(c, s, PcStep(p, k)) == None
  {
    assert SemProcOk(c, s, q.procs[p], p, i);
    assert Sem.Sleepy(q.procs[p]);
  }

  // ----- no run gets stuck -----

  /** Who holds a lock can go on, once nobody else holds ptable.lock. */
  lemma GateOwnerSteps(c: Pc.Config, s: State, p: nat)
    requires Inv(c, s) && (s.gate.ptlock == Some(p) || (s.gate.gslock == Some(p) && PtFree(s)))
    ensures Next(c, s, MoveGate(p)).Some?
  {
    hide Pc.Inv, SemOk, PtFree, Acted, Gate.RunBody, GateActs, GateProcOk, Wants;
    GateLocks(c, s.pc, s.gate);
    if s.gate.ptlock == Some(p) {
      Gate.AtLocks(s.gate, p);
    } else {
      assert PtFree(s) ==> s.gate.ptlock == None by { PtFreeAll(s); }
      Gate.AtLocks(s.gate, p);
    }
  }

  lemma PtFreeAll(s: State)
    requires PtFree(s)
    ensures s.gate.ptlock == None && forall i | 0 <= i < |s.sems| :: s.sems[i].ptlock == None
  {
  }

  lemma GateLocks(c: Pc.Config, s: Pc.State, g: Gate.State)
    requires GateOk(c, s, g)
    ensures Gate.LocksOk(g)
  {
  }

  lemma SemOwnerSteps(c: Pc.Config, s: State, i: nat, p: nat)
    requires Inv(c, s) && i < 4 && (s.sems[i].ptlock == Some(p) || (s.sems[i].sslock == Some(p) && PtFree(s)))
    ensures Next(c, s, MoveSem(p, i)).Some?
  {
    hide Pc.Inv, GateOk, PtFree, Acted, Sem.RunBody, SemActs, SemProcOk, Wants;
    assert SemOk(c, s.pc, s.sems[i], i);
    if PtFree(s) {
      PtFreeAll(s);
    }
  }

  /** No lock is held anywhere. */
  predicate Unlocked(s: State) {
    PtFree(s) && s.gate.gslock == None && forall i | 0 <= i < |s.sems| :: s.sems[i].sslock == None
  }

  lemma HolderSteps(c: Pc.Config, s: State) returns (step: Step)
    requires Inv(c, s) && !Unlocked(s)
    ensures Next(c, s, step).Some?
  {
    hide Next, Inv;
    assert |s.sems| == 4 by { InvShape(c, s); }
    if s.gate.ptlock.Some? {
      step := MoveGate(s.gate.ptlock.value);
      GateOwnerSteps(c, s, step.p);
    } else if i: nat :| i < 4 && s.sems[i].ptlock.Some? {
      step := MoveSem(s.sems[i].ptlock.value, i);
      SemOwnerSteps(c, s, i, step.p);
    } else if s.gate.gslock.Some? {
      step := MoveGate(s.gate.gslock.value);
      GateOwnerSteps(c, s, step.p);
    } else {
      var i: nat :| i < 4 && s.sems[i].sslock.Some?;
      step := MoveSem(s.sems[i].sslock.value, i);
      SemOwnerSteps(c, s, i, step.p);
    }
  }

  lemma InvShape(c: Pc.Config, s: State)
    requires Inv(c, s)
    ensures Shaped(s, Procs(c))
  {
  }

  /** With every lock free, whoever is in a call and not asleep can go on. */
  lemma AwakeSteps(c: Pc.Config, s: State, p: nat) returns (step: Step)
    requires Inv(c, s) && Unlocked(s) && p < Procs(c) && !AtRest(s, p)
    requires !s.gate.procs[p].at.Asleep? && forall i | 0 <= i < 4 :: !s.sems[i].procs[p].Asleep?
    ensures Next(c, s, step).Some?
  {
    hide Pc.Inv, GateOk, SemOk, Acted, Gate.RunBody, Sem.RunBody, Wants, Gate.HoldsGs, Gate.HoldsPt;
    if !s.gate.procs[p].at.Idle? {
      step := MoveGate(p);
    } else {
      var i: nat :| i < 4 && !s.sems[i].procs[p].Idle?;
      step := MoveSem(p, i);
    }
  }

  /** A process at rest whose program can go on enters its call or takes its step. */
  lemma RestSteps(c: Pc.Config, s: State, p: nat, k: nat) returns (step: Step)
    requires Inv(c, s) && p < Procs(c) && AtRest(s, p) && Pc.Next(c, s.pc, PcStep(p, k)).Some?
    ensures Next(c, s, step).Some?
  {
    hide Pc.Inv, SemOk, Gate.Inv, Acted;
    assert GateProcOk(c, s.pc, s.gate.procs[p], p);
    WantsPlain(c, s.pc, p);
    if Wants(c, s.pc, p) == Itself {
      step := Local(p, k);
    } else {
      step := Call(p);
    }
  }

  /** While the program is not done, someone can take a step. */
  lemma SomeoneSteps(c: Pc.Config, s: State) returns (step: Step)
    requires Inv(c, s) && !Pc.Done(s.pc)
    ensures Next(c, s, step).Some?
  {
    hide Next, Pc.Next, AtRest, Pc.Inv, GateOk, SemOk;
    if !Unlocked(s) {
      step := HolderSteps(c, s);
      return;
    }
    var go := Pc.Progress(c, s.pc);
    var p, k: nat := if go.ParentStep? then 0 else go.k + 1, go.k;
    assert p < Procs(c) by { StepInRange(c, s.pc, go); }
    assert PcStep(p, k) == go || go.ChildStep?;
    if AtRest(s, p) {
      step := RestSteps(c, s, p, k);
    } else if s.gate.procs[p].at.Asleep? {
      GateBlocked(c, s.pc, s.gate, p, k);
      assert false;
    } else if i: nat :| i < 4 && s.sems[i].procs[p].Asleep? {
      SemBlocked(c, s.pc, s.sems[i], i, p, k);
      assert false;
    } else {
      step := AwakeSteps(c, s, p);
    }
  }

  lemma StepInRange(c: Pc.Config, s: Pc.State, go: Pc.Step)
    requires Pc.Inv(c, s) && Pc.Next(c, s, go).Some?
    ensures go.ChildStep? ==> go.k < c.Children()
  {
  }

  // ----- every run ends -----

  /** The steps a process may take before the program gets on, where waking everybody is
      charged with all that the woken do. */
  function SemLeft(n: nat, q: Sem.Proc): int {
    match q
    case Idle => 30
    case Acquire(_) => 10
    case Body(_) => 9
    case WakeAcquire(_) => 33 + 12 * n
    case WakeRun(_) => 32 + 12 * n
    case Leave(_) => 31
    case SleepAcquire => 4
    case SleepRelease => 3
    case SleepSet => 2
    case Asleep => 1
    case Runnable => 12
    case Resumed => 11
  }

  function GateLeft(n: nat, q: Gate.Proc): int {
    match q.at
    case Idle => 30
    case Acquire(op) => if op.Find? then 16 else 10
    case Body(op) => if op.Find? then 15 else 9
    case WakeAcquire => 33 + 12 * n
    case WakeRun => 32 + 12 * n
    case Leave(None) => 31
    case Leave(Some(_)) => 14
    case SleepAcquire => 4
    case SleepRelease => 3
    case SleepSet => 2
    case Asleep => 1
    case Runnable => 12
    case Resumed => 11
  }

  function SemLeftOf(n: nat): Sem.Proc -> int {
    q => SemLeft(n, q)
  }

  function GateLeftOf(n: nat): Gate.Proc -> int {
    q => GateLeft(n, q)
  }

  function SemSum(q: Sem.State): int {
    Sum(SemLeftOf(|q.procs|), q.procs)
  }

  function GateSum(g: Gate.State): int {
    Sum(GateLeftOf(|g.procs|), g.procs)
  }

  function Weight(n: nat): nat {
    25 + 12 * n
  }

  function Waits(s: State): int
    requires |s.sems| == 4
  {
    GateSum(s.gate) + SemSum(s.sems[0]) + SemSum(s.sems[1]) + SemSum(s.sems[2]) + SemSum(s.sems[3])
  }

  function Measure(c: Pc.Config, s: State): int
    requires |s.sems| == 4
  {
    Weight(Procs(c)) * Pc.Measure(c, s.pc) + Waits(s)
  }

  lemma SemOneMoves(q: Sem.State, t: Sem.State, p: nat)
    requires p < |q.procs| == |t.procs| && t.procs == q.procs[p := t.procs[p]]
    ensures SemSum(t) == SemSum(q) - SemLeft(|q.procs|, q.procs[p]) + SemLeft(|q.procs|, t.procs[p])
  {
    SumUpdate(SemLeftOf(|q.procs|), q.procs, p, t.procs[p]);
  }

  lemma SemWakes(q: Sem.State, p: nat)
    requires p < |q.procs| && q.procs[p].WakeRun?
    ensures SemSum(Sem.Next(q, Sem.Advance(p)).value) < SemSum(q)
  {
    var n, woken := |q.procs|, Sem.WakeAll(q.procs);
    SumWithin(SemLeftOf(n), q.procs, woken, 11);
    var t := Sem.Next(q, Sem.Advance(p)).value;
    SumUpdate(SemLeftOf(n), woken, p, t.procs[p]);
    assert t.procs == woken[p := t.procs[p]];
  }

  /** Short of its effect every step of a semaphore is one step fewer. */
  lemma SemStaysLess(q: Sem.State, p: nat)
    requires p < |q.procs| && Sem.Next(q, Sem.Advance(p)).Some? && !SemActs(q, p) && q.killed == {}
    requires Plain(q.procs[p]) && (SemPending(q.procs[p]).Some? ==> PlainOp(SemPending(q.procs[p]).value))
    ensures SemSum(Sem.Next(q, Sem.Advance(p)).value) < SemSum(q)
  {
    hide SemSum;
    if q.procs[p].WakeRun? {
      SemWakes(q, p);
    } else {
      SemOneMoves(q, Sem.Next(q, Sem.Advance(p)).value, p);
    }
  }

  lemma SemGoesMore(q: Sem.State, p: nat)
    requires p < |q.procs| && SemActs(q, p)
    ensures Sem.Next(q, Sem.Advance(p)).Some?
    ensures SemSum(Sem.Next(q, Sem.Advance(p)).value) < SemSum(q) + Weight(|q.procs|)
  {
    hide SemSum;
    SemOneMoves(q, Sem.Next(q, Sem.Advance(p)).value, p);
  }

  lemma SemCallLess(q: Sem.State, p: nat, op: Sem.Op)
    requires p < |q.procs| && Sem.Next(q, Sem.Call(p, op)).Some?
    ensures SemSum(Sem.Next(q, Sem.Call(p, op)).value) < SemSum(q)
  {
    hide SemSum;
    SemOneMoves(q, Sem.Next(q, Sem.Call(p, op)).value, p);
  }

  lemma GateOneMoves(g: Gate.State, h: Gate.State, p: nat)
    requires p < |g.procs| && |h.procs| == |g.procs|
    requires forall r | 0 <= r < |g.procs| && r != p :: h.procs[r].at == g.procs[r].at
    ensures GateSum(h) == GateSum(g) - GateLeft(|g.procs|, g.procs[p]) + GateLeft(|g.procs|, h.procs[p])
  {
    var n := |g.procs|;
    SumUpdate(GateLeftOf(n), g.procs, p, h.procs[p]);
    SumSame(GateLeftOf(n), GateLeftOf(n), h.procs, g.procs[p := h.procs[p]]);
  }

  lemma GateWakes(g: Gate.State, p: nat)
    requires p < |g.procs| && g.procs[p].at.WakeRun?
    ensures GateSum(Gate.Next(g, Gate.Advance(p)).value) < GateSum(g)
  {
    var n, woken := |g.procs|, Gate.WakeAll(g.procs);
    SumWithin(GateLeftOf(n), g.procs, woken, 11);
    var h := Gate.Next(g, Gate.Advance(p)).value;
    SumUpdate(GateLeftOf(n), woken, p, h.procs[p]);
    assert h.procs == woken[p := h.procs[p]];
  }

  lemma GateStaysLess(g: Gate.State, p: nat)
    requires p < |g.procs| && Gate.Next(g, Gate.Advance(p)).Some? && !GateActs(g, p) && g.killed == {} && g.named
    requires GatePending(g.procs[p].at).Some? ==> PlainSection(GatePending(g.procs[p].at).value)
    requires Gate.ProcOk(g.procs[p])
    ensures GateSum(Gate.Next(g, Gate.Advance(p)).value) < GateSum(g)
  {
    hide GateSum, Gate.RunBody;
    var h := Gate.Next(g, Gate.Advance(p)).value;
    if g.procs[p].at.WakeRun? {
      GateWakes(g, p);
    } else {
      if g.procs[p].at.Body? {
        BodyStays(g, p, g.procs[p].at.op);
      } else {
        Gate.MovesOnward(g, p);
      }
      GateOneMoves(g, h, p);
    }
  }

  lemma GateProcs(c: Pc.Config, s: Pc.State, g: Gate.State, p: nat)
    requires GateOk(c, s, g) && p < |g.procs|
    ensures Gate.ProcOk(g.procs[p])
  {
  }

  lemma GateGoesMore(g: Gate.State, p: nat)
    requires p < |g.procs| && GateActs(g, p)
    ensures Gate.Next(g, Gate.Advance(p)).Some?
    ensures GateSum(Gate.Next(g, Gate.Advance(p)).value) < GateSum(g) + Weight(|g.procs|)
  {
    hide GateSum, Gate.RunBody;
    GateGoes(g, p);
    GateOneMoves(g, Gate.Next(g, Gate.Advance(p)).value, p);
  }

  lemma GateCallLess(g: Gate.State, p: nat, op: Gate.Op)
    requires p < |g.procs| && Gate.Next(g, Gate.Call(p, op)).Some?
    ensures GateSum(Gate.Next(g, Gate.Call(p, op)).value) < GateSum(g)
  {
    hide GateSum;
    GateOneMoves(g, Gate.Next(g, Gate.Call(p, op)).value, p);
  }

  /** One semaphore's share of the waiting. */
  lemma OneShare(s: State, t: State, i: nat)
    requires |s.sems| == 4 && i < 4 && t.gate == s.gate && |t.sems| == 4 && t.sems == s.sems[i := t.sems[i]]
    ensures Waits(t) - Waits(s) == SemSum(t.sems[i]) - SemSum(s.sems[i])
  {
  }

  /** Waiting steps use up waiting; a step of the program may bring more. */
  lemma WaitsStep(c: Pc.Config, s: State, step: Step)
    requires Inv(c, s) && Next(c, s, step).Some?
    ensures |s.sems| == |Next(c, s, step).value.sems| == 4
    ensures if TakesEffect(s, step) then Waits(Next(c, s, step).value) < Waits(s) + Weight(Procs(c))
            else Waits(Next(c, s, step).value) < Waits(s)
  {
    hide Pc.Inv, Pc.Next, Gate.Inv, Sem.Inv, Gate.Next, Sem.Next, GateSum, SemSum, Wants, Acted, Count;
    var t, p := Next(c, s, step).value, step.p;
    WantsPlain(c, s.pc, p);
    match step
    case Call(_) =>
      if Wants(c, s.pc, p).CallGate? {
        GateCallLess(s.gate, p, Wants(c, s.pc, p).section);
      } else {
        var i := Wants(c, s.pc, p).i;
        SemCallLess(s.sems[i], p, Wants(c, s.pc, p).op);
        OneShare(s, t, i);
      }
    case MoveGate(_) =>
      assert GateProcOk(c, s.pc, s.gate.procs[p], p);
      if GateActs(s.gate, p) {
        GateGoesMore(s.gate, p);
      } else {
        GateProcs(c, s.pc, s.gate, p);
        GateStaysLess(s.gate, p);
      }
    case MoveSem(_, i) =>
      assert SemOk(c, s.pc, s.sems[i], i) && SemProcOk(c, s.pc, s.sems[i].procs[p], p, i);
      if SemActs(s.sems[i], p) {
        SemGoesMore(s.sems[i], p);
      } else {
        SemStaysLess(s.sems[i], p);
      }
      OneShare(s, t, i);
    case Local(_, _) =>
  }

  lemma {:induction false} Times(w: nat, m: int, k: int)
    requires k < m
    ensures w * k + w <= w * m
    decreases m - k
  {
    if k + 1 < m {
      Times(w, m - 1, k);
      assert w * m == w * (m - 1) + w;
    } else {
      assert w * m == w * k + w;
    }
  }

  lemma StepDecreases(c: Pc.Config, s: State, step: Step)
    requires Inv(c, s) && Next(c, s, step).Some?
    ensures |s.sems| == |Next(c, s, step).value.sems| == 4
    ensures Measure(c, Next(c, s, step).value) < Measure(c, s)
  {
    hide Inv, Next, Pc.Next, Pc.Inv, Pc.Measure, TakesEffect, Waits, Weight;
    StepRefines(c, s, step);
    WaitsStep(c, s, step);
    var t := Next(c, s, step).value;
    if TakesEffect(s, step) {
      assert Pc.Inv(c, s.pc) by { InvPc(c, s); }
      Pc.StepDecreases(c, s.pc, EffectOf(step));
      Times(Weight(Procs(c)), Pc.Measure(c, s.pc), Pc.Measure(c, t.pc));
    }
  }

  lemma InvPc(c: Pc.Config, s: State)
    requires Inv(c, s)
    ensures Pc.Inv(c, s.pc) && |s.sems| == 4
  {
  }

  lemma MeasureNonNegative(c: Pc.Config, s: State)
    requires Inv(c, s)
    ensures |s.sems| == 4 && Measure(c, s) >= 0
  {
    hide Pc.Inv, Pc.Measure, Gate.Inv, Sem.Inv;
    InvPc(c, s);
    Pc.MeasureNonNegative(c, s.pc);
    SumNonNegative(GateLeftOf(|s.gate.procs|), s.gate.procs);
    forall i | 0 <= i < 4 ensures SemSum(s.sems[i]) >= 0 {
      SumNonNegative(SemLeftOf(|s.sems[i].procs|), s.sems[i].procs);
    }
  }

  lemma {:induction false} RunIsShort(c: Pc.Config, steps: seq<Step>)
    requires c.Ok() && Exec(c, steps).Some?
    ensures Inv(c, Exec(c, steps).value) && |Exec(c, steps).value.sems| == 4
    ensures |steps| + Measure(c, Exec(c, steps).value) <= Measure(c, Initial(c))
  {
    hide Inv, Next, Measure;
    if steps == [] {
      InitialInv(c);
    } else {
      var front := steps[..|steps| - 1];
      RunIsShort(c, front);
      StepKeepsInv(c, Exec(c, front).value, steps[|steps| - 1]);
      StepDecreases(c, Exec(c, front).value, steps[|steps| - 1]);
    }
  }

  /** The program's promise down to the locks. Every run on the semaphores is finite, with a
      bound known in advance; one that can go no further, however the processes were put to
      sleep and woken, has finished with everything made, consumed and reaped. */
  lemma EveryRunFinishes(c: Pc.Config, steps: seq<Step>)
    requires c.Ok() && Exec(c, steps).Some?
    ensures |steps| <= Measure(c, Initial(c))
    ensures (forall step :: Next(c, Exec(c, steps).value, step) == None) ==> Pc.Finished(c, Exec(c, steps).value.pc)
  {
    hide Inv, Next, Measure, Pc.Next, Pc.Inv, Pc.Finished;
    RunIsShort(c, steps);
    var s := Exec(c, steps).value;
    MeasureNonNegative(c, s);
    InvPc(c, s);
    if forall step :: Next(c, s, step) == None {
      if !Pc.Done(s.pc) {
        var step := SomeoneSteps(c, s);
        assert false;
      }
      Pc.DoneIsFinished(c, s.pc);
    }
  }
}
