/** The producer/consumer program of pc.c: one parent and any number of producers and
    consumers over five semaphores. A semaphore call is one step, enabled when it would
    not sleep; PcLocks runs the program on Sem and Gate, lock by lock, and shows that a
    sleeper's step is one that is not enabled here. All forks succeed and nobody is killed. */
module Pc {
  import opened Blocks
  import opened Sums

  const MAX_MSG := 3

  /** prodNum, consNum and msgNumPerProd as main gets them past its argument check. */
  datatype Config = Config(prods: nat, cons: nat, msgs: nat) {
    predicate Ok() { prods > 0 && cons > 0 && msgs > 0 }
    function Total(): nat { prods * msgs }
    function Children(): nat { prods + cons }
  }

  /** A producer's place in one iteration: before sem_wait(buffa), sem_wait(write),
      writing, and before sem_post(write) is over, before sem_post(buffb). */
  datatype ProdAt = WaitA | WaitWrite | Writing | PostB

  /** A consumer's place: before sem_try_wait(total), sem_wait(buffb), sem_wait(write),
      writing until sem_post(write), before sem_post(buffa). */
  datatype ConsAt = Try | WaitB | WaitWriteC | WritingC | PostA

  /** made and got count finished iterations. Gate is before sem_close(waitcd), Unlink
      blocked in sem_unlink("waitc"). */
  datatype Child =
    | Unborn
    | Gate(producer: bool)
    | Unlink(producer: bool)
    | Producing(made: nat, at: ProdAt)
    | Consuming(got: nat, place: ConsAt)
    | Zombie(made: nat, got: nat)
    | Reaped(made: nat, got: nat)

  /** The parent: forking child i, closing the gate, having reaped i children, and
      having closed and unlinked i of the other four semaphores. */
  datatype Parent = Forking(i: nat) | Closing | Reaping(i: nat) | Cleaning(i: nat)

  datatype State = State(
    parent: Parent, kids: seq<Child>, gateRef: int, buffa: int, buffb: int, total: int, write: int)

  datatype Step = ParentStep(k: nat) | ChildStep(k: nat)

  function Initial(c: Config): State {
    State(Forking(0), seq(c.Children(), i => Unborn), 1, MAX_MSG, 0, c.Total(), 1)
  }

  function Gone(k: Child): bool { k.Zombie? || k.Reaped? }

  /** sem_post: refused with -2 at the maximum. */
  function Posted(count: int, max: int): Option<int> {
    if count == max then None else Some(count + 1)
  }

  /** A step of the parent; k names the child wait() finds. */
  function ParentNext(c: Config, s: State, k: nat): Option<State> {
    match s.parent
    case Forking(i) =>
      if i < c.Children() && i < |s.kids| then
        Some(s.(parent := Forking(i + 1), kids := s.kids[i := Gate(i < c.prods)], gateRef := s.gateRef + 1))
      else if i == c.Children() then Some(s.(parent := Closing)) else None
    case Closing => Some(s.(parent := Reaping(0), gateRef := s.gateRef - 1))
    case Reaping(i) =>
      if i == c.Children() then Some(s.(parent := Cleaning(0)))
      else if k < |s.kids| && s.kids[k].Zombie? then
        Some(s.(parent := Reaping(i + 1), kids := s.kids[k := Reaped(s.kids[k].made, s.kids[k].got)]))
      else None
    case Cleaning(i) =>
      // sem_unlink returns once nobody but the parent has the semaphore open
      if i < 4 && forall j | 0 <= j < |s.kids| :: Gone(s.kids[j]) then Some(s.(parent := Cleaning(i + 1))) else None
  }

  /** A step of child k; a refused post is reported by the second component. */
  function ChildNext(c: Config, s: State, k: nat): (Option<State>, bool)
    requires k < |s.kids|
  {
    match s.kids[k]
    case Gate(p) => (Some(s.(kids := s.kids[k := Unlink(p)], gateRef := s.gateRef - 1)), false)
    case Unlink(p) =>
      (if s.gateRef == 0 then Some(s.(kids := s.kids[k := if p then Producing(0, WaitA) else Consuming(0, Try)]))
       else None, false)
    case Producing(made, WaitA) =>
      (if made == c.msgs then Some(s.(kids := s.kids[k := Zombie(made, 0)]))
       else if s.buffa > 0 then Some(s.(buffa := s.buffa - 1, kids := s.kids[k := Producing(made, WaitWrite)]))
       else None, false)
    case Producing(made, WaitWrite) =>
      (if s.write > 0 then Some(s.(write := s.write - 1, kids := s.kids[k := Producing(made, Writing)]))
       else None, false)
    case Producing(made, Writing) =>
      (match Posted(s.write, 1)
       case None => (Some(s.(kids := s.kids[k := Producing(made, PostB)])), true)
       case Some(w) => (Some(s.(write := w, kids := s.kids[k := Producing(made, PostB)])), false))
    case Producing(made, PostB) =>
      (match Posted(s.buffb, MAX_MSG)
       case None => (Some(s.(kids := s.kids[k := Producing(made + 1, WaitA)])), true)
       case Some(b) => (Some(s.(buffb := b, kids := s.kids[k := Producing(made + 1, WaitA)])), false))
    case Consuming(got, Try) =>
      (if s.total > 0 then Some(s.(total := s.total - 1, kids := s.kids[k := Consuming(got, WaitB)]))
       else Some(s.(kids := s.kids[k := Zombie(0, got)])), false)
    case Consuming(got, WaitB) =>
      (if s.buffb > 0 then Some(s.(buffb := s.buffb - 1, kids := s.kids[k := Consuming(got, WaitWriteC)]))
       else None, false)
    case Consuming(got, WaitWriteC) =>
      (if s.write > 0 then Some(s.(write := s.write - 1, kids := s.kids[k := Consuming(got, WritingC)]))
       else None, false)
    case Consuming(got, WritingC) =>
      (match Posted(s.write, 1)
       case None => (Some(s.(kids := s.kids[k := Consuming(got, PostA)])), true)
       case Some(w) => (Some(s.(write := w, kids := s.kids[k := Consuming(got, PostA)])), false))
    case Consuming(got, PostA) =>
      (match Posted(s.buffa, MAX_MSG)
       case None => (Some(s.(kids := s.kids[k := Consuming(got + 1, Try)])), true)
       case Some(a) => (Some(s.(buffa := a, kids := s.kids[k := Consuming(got + 1, Try)])), false))
    case _ => (None, false)
  }

  function Next(c: Config, s: State, step: Step): Option<State> {
    match step
    case ParentStep(k) => ParentNext(c, s, k)
    case ChildStep(k) => if k < |s.kids| then ChildNext(c, s, k).0 else None
  }

  predicate Refused(c: Config, s: State, step: Step) {
    step.ChildStep? && step.k < |s.kids| && ChildNext(c, s, step.k).1
  }

  predicate Done(s: State) { s.parent == Cleaning(4) }

  // ----- what the children hold, one child at a time -----

  function AtGate(k: Child): int { if k.Gate? then 1 else 0 }
  /** A slot of the buffer taken from buffa and not yet in buffb, or from buffb and not yet in buffa. */
  function Slot(k: Child): int {
    if (k.Producing? && !k.at.WaitA?) || (k.Consuming? && !k.place.Try? && !k.place.WaitB?) then 1 else 0
  }
  function InWrite(k: Child): int {
    if (k.Producing? && k.at.Writing?) || (k.Consuming? && k.place.WritingC?) then 1 else 0
  }
  /** Successful sem_try_wait(total) calls. */
  function Tickets(k: Child): int {
    if k.Consuming? then k.got + (if k.place.Try? then 0 else 1) else if Gone(k) then k.got else 0
  }
  /** Items put into the buffer, and items taken out of it. */
  function Made(k: Child): int { if k.Producing? || Gone(k) then k.made else 0 }
  function Taken(k: Child): int {
    if k.Consuming? then k.got + (if k.place.Try? || k.place.WaitB? then 0 else 1) else if Gone(k) then k.got else 0
  }
  /** Iterations a consumer has finished. */
  function Got(k: Child): int { if k.Consuming? || Gone(k) then k.got else 0 }
  function IsReaped(k: Child): int { if k.Reaped? then 1 else 0 }

  // ----- the invariant -----

  predicate Started(k: Child) { k.Producing? || k.Consuming? || Gone(k) }

  predicate KidOk(c: Config, s: State, i: nat)
    requires i < |s.kids|
  {
    var k := s.kids[i];
    && (k.Gate? || k.Unlink? ==> k.producer == (i < c.prods))
    && (k.Producing? ==> i < c.prods && k.made <= c.msgs && (!k.at.WaitA? ==> k.made < c.msgs))
    && (k.Consuming? ==> i >= c.prods)
    && (Gone(k) ==> if i < c.prods then k.made == c.msgs && k.got == 0 else k.made == 0 && s.total == 0)
    && (k.Unborn? <==> s.parent.Forking? && i >= s.parent.i)
    && (Started(k) ==> s.gateRef == 0 && !s.parent.Forking? && !s.parent.Closing?)
  }

  ghost predicate Inv(c: Config, s: State) {
    && c.Ok() && |s.kids| == c.Children()
    && (s.parent.Forking? ==> s.parent.i <= c.Children())
    && (s.parent.Cleaning? ==> s.parent.i <= 4 && Sum(IsReaped, s.kids) == c.Children())
    && (s.parent.Reaping? ==> s.parent.i == Sum(IsReaped, s.kids))
    && (forall i | 0 <= i < |s.kids| :: KidOk(c, s, i))
    && Counted(c, s)
    && s.write >= 0 && s.buffa >= 0 && s.buffb >= 0 && s.total >= 0
  }

  lemma SumsAfter(kids: seq<Child>, i: nat, k: Child)
    requires i < |kids|
    ensures Sum(AtGate, kids[i := k]) == Sum(AtGate, kids) - AtGate(kids[i]) + AtGate(k)
    ensures Sum(InWrite, kids[i := k]) == Sum(InWrite, kids) - InWrite(kids[i]) + InWrite(k)
    ensures Sum(Slot, kids[i := k]) == Sum(Slot, kids) - Slot(kids[i]) + Slot(k)
    ensures Sum(Tickets, kids[i := k]) == Sum(Tickets, kids) - Tickets(kids[i]) + Tickets(k)
    ensures Sum(Taken, kids[i := k]) == Sum(Taken, kids) - Taken(kids[i]) + Taken(k)
    ensures Sum(Made, kids[i := k]) == Sum(Made, kids) - Made(kids[i]) + Made(k)
    ensures Sum(IsReaped, kids[i := k]) == Sum(IsReaped, kids) - IsReaped(kids[i]) + IsReaped(k)
  {
    SumUpdate(AtGate, kids, i, k);
    SumUpdate(InWrite, kids, i, k);
    SumUpdate(Slot, kids, i, k);
    SumUpdate(Tickets, kids, i, k);
    SumUpdate(Taken, kids, i, k);
    SumUpdate(Made, kids, i, k);
    SumUpdate(IsReaped, kids, i, k);
  }

  lemma ParentKeepsInv(c: Config, s: State, k: nat)
    requires Inv(c, s) && ParentNext(c, s, k).Some?
    ensures Inv(c, ParentNext(c, s, k).value)
  {
    var t := ParentNext(c, s, k).value;
    if s.parent.Forking? && s.parent.i < c.Children() {
      SumsAfter(s.kids, s.parent.i, Gate(s.parent.i < c.prods));
      assert s.kids[s.parent.i].Unborn? by { assert KidOk(c, s, s.parent.i); }
    } else if s.parent.Reaping? && s.parent.i != c.Children() {
      SumsAfter(s.kids, k, Reaped(s.kids[k].made, s.kids[k].got));
    }
    forall i | 0 <= i < |t.kids| ensures KidOk(c, t, i) && (s.parent.Closing? ==> IsReaped(s.kids[i]) == 0) {
      assert KidOk(c, s, i);
    }
    if s.parent.Closing? {
      SumZero(IsReaped, s.kids);
    }
  }

  /** The equations between counters and children, without the per-child facts. */
  ghost predicate Counted(c: Config, s: State) {
    && s.gateRef == Sum(AtGate, s.kids) + (if s.parent.Forking? || s.parent.Closing? then 1 else 0)
    && s.write + Sum(InWrite, s.kids) == 1
    && s.buffa + s.buffb + Sum(Slot, s.kids) == MAX_MSG
    && s.total + Sum(Tickets, s.kids) == c.Total()
    && s.buffb + Sum(Taken, s.kids) == Sum(Made, s.kids)
  }

  /** No post is refused: whoever posts holds what the post gives back. */
  lemma NotRefused(c: Config, s: State, k: nat)
    requires Counted(c, s) && s.write >= 0 && s.buffa >= 0 && s.buffb >= 0 && k < |s.kids|
    ensures !ChildNext(c, s, k).1
  {
    SumAtLeast(InWrite, s.kids, k);
    SumAtLeast(Slot, s.kids, k);
  }

  /** What one child's step moves, counter by counter. */
  lemma ChildMoves(c: Config, s: State, k: nat)
    requires k < |s.kids| && ChildNext(c, s, k).0.Some? && !ChildNext(c, s, k).1
    ensures var t := ChildNext(c, s, k).0.value; var a := s.kids[k]; |t.kids| == |s.kids| && var b := t.kids[k];
      && t.kids == s.kids[k := b] && t.parent == s.parent
      && t.gateRef - s.gateRef == AtGate(b) - AtGate(a)
      && t.write - s.write == InWrite(a) - InWrite(b)
      && (t.buffa + t.buffb) - (s.buffa + s.buffb) == Slot(a) - Slot(b)
      && t.total - s.total == Tickets(a) - Tickets(b)
      && (t.buffb + Taken(b) - Made(b)) == (s.buffb + Taken(a) - Made(a))
      && IsReaped(b) == IsReaped(a)
  {
  }

  lemma ChildKeepsCounts(c: Config, s: State, k: nat)
    requires Counted(c, s) && k < |s.kids| && ChildNext(c, s, k).0.Some? && !ChildNext(c, s, k).1
    ensures Counted(c, ChildNext(c, s, k).0.value)
    ensures Sum(IsReaped, ChildNext(c, s, k).0.value.kids) == Sum(IsReaped, s.kids)
  {
    ChildMoves(c, s, k);
    SumsAfter(s.kids, k, ChildNext(c, s, k).0.value.kids[k]);
  }

  lemma ChildKeepsKids(c: Config, s: State, k: nat)
    requires Inv(c, s) && k < |s.kids| && ChildNext(c, s, k).0.Some? && !ChildNext(c, s, k).1
    ensures var t := ChildNext(c, s, k).0.value; |t.kids| == |s.kids| && forall i | 0 <= i < |t.kids| :: KidOk(c, t, i)
  {
    var t := ChildNext(c, s, k).0.value;
    SumAtLeast(AtGate, s.kids, k);
    SumNonNegative(AtGate, s.kids);
    assert KidOk(c, s, k);
    forall i | 0 <= i < |t.kids| ensures KidOk(c, t, i) {
      assert KidOk(c, s, i);
      if i != k {
        OtherKidKept(c, s, t, i, k);
      }
    }
  }

  lemma OtherKidKept(c: Config, s: State, t: State, i: nat, k: nat)
    requires |s.kids| == |t.kids| && i < |s.kids| && k < |s.kids| && KidOk(c, s, i) && t.kids[i] == s.kids[i]
    requires t.parent == s.parent
    requires t.total == s.total || (s.total > 0 && t.total == s.total - 1)
    requires t.gateRef == s.gateRef || (s.gateRef > 0 && t.gateRef == s.gateRef - 1)
    ensures KidOk(c, t, i)
  {
  }

  lemma ChildKeepsInv(c: Config, s: State, k: nat)
    requires Inv(c, s) && k < |s.kids| && ChildNext(c, s, k).0.Some?
    ensures !ChildNext(c, s, k).1 && Inv(c, ChildNext(c, s, k).0.value)
  {
    NotRefused(c, s, k);
    ChildKeepsCounts(c, s, k);
    ChildKeepsKids(c, s, k);
  }

  // ----- runs and safety -----

  function Exec(c: Config, steps: seq<Step>): Option<State> {
    if steps == [] then Some(Initial(c)) else
      match Exec(c, steps[..|steps| - 1])
      case None => None
      case Some(s) => Next(c, s, steps[|steps| - 1])
  }

  lemma InitialInv(c: Config)
    requires c.Ok()
    ensures Inv(c, Initial(c))
  {
    var kids := Initial(c).kids;
    SumZero(AtGate, kids);
    SumZero(InWrite, kids);
    SumZero(Slot, kids);
    SumZero(Tickets, kids);
    SumZero(Taken, kids);
    SumZero(Made, kids);
  }

  lemma StepKeepsInv(c: Config, s: State, step: Step)
    requires Inv(c, s) && Next(c, s, step).Some?
    ensures !Refused(c, s, step) && Inv(c, Next(c, s, step).value)
  {
    match step
    case ParentStep(k) => ParentKeepsInv(c, s, k);
    case ChildStep(k) => ChildKeepsInv(c, s, k);
  }

  lemma {:induction false} RunKeepsInv(c: Config, steps: seq<Step>)
    requires c.Ok() && Exec(c, steps).Some?
    ensures Inv(c, Exec(c, steps).value)
  {
    if steps == [] {
      InitialInv(c);
    } else {
      RunKeepsInv(c, steps[..|steps| - 1]);
      StepKeepsInv(c, Exec(c, steps[..|steps| - 1]).value, steps[|steps| - 1]);
    }
  }

  /** Safety in every reachable state: the gate holds until the parent closes it, at
      most one process is between sem_wait(write) and sem_post(write), the buffer's
      slots are conserved, and no post in any next step is refused. */
  lemma Safety(c: Config, steps: seq<Step>)
    requires c.Ok() && Exec(c, steps).Some?
    ensures var s := Exec(c, steps).value;
      && ((exists i :: 0 <= i < |s.kids| && Started(s.kids[i])) ==> !s.parent.Forking? && !s.parent.Closing?)
      && (forall i, j | 0 <= i < j < |s.kids| :: InWrite(s.kids[i]) + InWrite(s.kids[j]) <= 1)
      && s.buffa + s.buffb + Sum(Slot, s.kids) == MAX_MSG && s.buffa >= 0 && s.buffb >= 0
      && forall step | Next(c, s, step).Some? :: !Refused(c, s, step)
  {
    RunKeepsInv(c, steps);
    var s := Exec(c, steps).value;
    forall i | 0 <= i < |s.kids| && Started(s.kids[i]) ensures !s.parent.Forking? && !s.parent.Closing? {
      assert KidOk(c, s, i);
    }
    forall i, j | 0 <= i < j < |s.kids| ensures InWrite(s.kids[i]) + InWrite(s.kids[j]) <= 1 {
      SumPair(InWrite, s.kids, i, j);
    }
    forall step | Next(c, s, step).Some? ensures !Refused(c, s, step) {
      StepKeepsInv(c, s, step);
    }
  }

  // ----- progress -----

  /** No child can take a step. */
  predicate ChildrenStuck(c: Config, s: State) {
    forall k | 0 <= k < |s.kids| :: ChildNext(c, s, k).0 == None
  }

  /** Stuck children with no zombie among them wait for an empty or a full slot, or are reaped. */
  lemma StuckShape(c: Config, s: State)
    requires Inv(c, s) && s.parent.Reaping? && ChildrenStuck(c, s)
    requires forall k | 0 <= k < |s.kids| :: !s.kids[k].Zombie?
    ensures forall k | 0 <= k < |s.kids| ::
      || s.kids[k].Reaped?
      || (s.kids[k].Producing? && s.kids[k].at.WaitA? && s.kids[k].made < c.msgs && s.buffa == 0)
      || (s.kids[k].Consuming? && s.kids[k].place.WaitB? && s.buffb == 0)
  {
    forall k | 0 <= k < |s.kids| ensures !s.kids[k].Gate? {
      assert ChildNext(c, s, k).0 == None;
    }
    SumZero(AtGate, s.kids);
    if s.write == 0 {
      var k := SumWitness(InWrite, s.kids);
      assert ChildNext(c, s, k).0 == None;
    }
    forall k | 0 <= k < |s.kids|
      ensures || s.kids[k].Reaped?
        || (s.kids[k].Producing? && s.kids[k].at.WaitA? && s.kids[k].made < c.msgs && s.buffa == 0)
        || (s.kids[k].Consuming? && s.kids[k].place.WaitB? && s.buffb == 0)
    {
      assert KidOk(c, s, k) && ChildNext(c, s, k).0 == None;
    }
  }

  /** Producers never put in more than the total, and exactly the total once all are gone. */
  lemma MadeBound(c: Config, s: State)
    requires Inv(c, s)
    ensures Sum(Made, s.kids) <= c.Total()
    ensures (forall k | 0 <= k < c.prods :: Gone(s.kids[k])) ==> Sum(Made, s.kids) == c.Total()
  {
    forall k | 0 <= k < |s.kids|
      ensures Made(s.kids[k]) <= if k < c.prods then c.msgs else 0
      ensures Gone(s.kids[k]) || k >= c.prods ==> Made(s.kids[k]) == if k < c.prods then c.msgs else 0
    {
      assert KidOk(c, s, k);
    }
    SumPrefix(Made, s.kids, c.prods, c.msgs);
  }

  /** Deadlock freedom among the children: while one is neither zombie nor reaped, some child can step. */
  lemma ChildCanStep(c: Config, s: State, i: nat)
    requires Inv(c, s) && s.parent.Reaping? && i < |s.kids| && !s.kids[i].Reaped?
    requires forall k | 0 <= k < |s.kids| :: !s.kids[k].Zombie?
    ensures !ChildrenStuck(c, s)
  {
    if ChildrenStuck(c, s) {
      StuckShape(c, s);
      SumZero(Slot, s.kids);
      MadeBound(c, s);
      if s.buffa == 0 {
        // every consumer has been reaped, so all tickets are used up
        assert KidOk(c, s, c.prods) && s.kids[c.prods].Reaped?;
        SumSame(Taken, Tickets, s.kids, s.kids);
      } else {
        forall k | 0 <= k < c.prods ensures Gone(s.kids[k]) {
          assert KidOk(c, s, k);
        }
        SumLess(Taken, Tickets, s.kids, i);
      }
      assert false;
    }
  }

  /** No reachable unfinished state is stuck. */
  lemma Progress(c: Config, s: State) returns (step: Step)
    requires Inv(c, s) && !Done(s)
    ensures Next(c, s, step).Some?
  {
    SumFull(IsReaped, s.kids);
    if s.parent.Reaping? && s.parent.i != c.Children() {
      if k: nat :| k < |s.kids| && s.kids[k].Zombie? {
        return ParentStep(k);
      }
      var i: nat :| i < |s.kids| && !s.kids[i].Reaped? by { NotAllReaped(s.kids); }
      ChildCanStep(c, s, i);
      var k: nat :| k < |s.kids| && ChildNext(c, s, k).0 != None;
      return ChildStep(k);
    }
    return ParentStep(0);
  }

  lemma NotAllReaped(kids: seq<Child>)
    requires Sum(IsReaped, kids) != |kids|
    ensures exists i: nat :: i < |kids| && !kids[i].Reaped?
  {
    if forall i: nat | i < |kids| :: kids[i].Reaped? {
      SumPrefix(IsReaped, kids, |kids|, 1);
    }
  }

  // ----- termination -----

  function Left(c: Config, k: Child): int {
    match k
    case Unborn => 4 * c.msgs + 3
    case Gate(p) => if p then 4 * c.msgs + 3 else 3
    case Unlink(p) => if p then 4 * c.msgs + 2 else 2
    case Producing(made, at) =>
      4 * (c.msgs - made) + 1 - (match at case WaitA => 0 case WaitWrite => 1 case Writing => 2 case PostB => 3)
    case Consuming(_, at) =>
      (match at case Try => 1 case WaitB => 5 case WaitWriteC => 4 case WritingC => 3 case PostA => 2)
    case _ => 0
  }

  function LeftIn(c: Config): Child -> int {
    k => Left(c, k)
  }

  function ParentLeft(c: Config, p: Parent): int {
    match p
    case Forking(i) => 2 * c.Children() - i + 7
    case Closing => c.Children() + 6
    case Reaping(i) => c.Children() - i + 5
    case Cleaning(i) => 4 - i
  }

  function Measure(c: Config, s: State): int {
    ParentLeft(c, s.parent) + 5 * s.total + Sum(LeftIn(c), s.kids)
  }

  lemma MeasureNonNegative(c: Config, s: State)
    requires Inv(c, s)
    ensures Measure(c, s) >= 0
  {
    forall k | 0 <= k < |s.kids| ensures LeftIn(c)(s.kids[k]) >= 0 {
      assert KidOk(c, s, k);
    }
    SumNonNegative(LeftIn(c), s.kids);
    SumFull(IsReaped, s.kids);
  }

  lemma ChildLeft(c: Config, s: State, k: nat)
    requires k < |s.kids| && ChildNext(c, s, k).0.Some? && !ChildNext(c, s, k).1
    ensures var t := ChildNext(c, s, k).0.value;
      |t.kids| == |s.kids| && Left(c, t.kids[k]) + 5 * t.total < Left(c, s.kids[k]) + 5 * s.total
  {
  }

  lemma StepDecreases(c: Config, s: State, step: Step)
    requires Inv(c, s) && Next(c, s, step).Some?
    ensures Measure(c, Next(c, s, step).value) < Measure(c, s)
  {
    var t := Next(c, s, step).value;
    match step
    case ParentStep(k) =>
      if s.parent.Forking? && s.parent.i < c.Children() {
        assert KidOk(c, s, s.parent.i);
        SumUpdate(LeftIn(c), s.kids, s.parent.i, Gate(s.parent.i < c.prods));
      } else if s.parent.Reaping? && s.parent.i != c.Children() {
        SumUpdate(LeftIn(c), s.kids, k, Reaped(s.kids[k].made, s.kids[k].got));
      }
    case ChildStep(k) =>
      NotRefused(c, s, k);
      ChildMoves(c, s, k);
      ChildLeft(c, s, k);
      SumUpdate(LeftIn(c), s.kids, k, t.kids[k]);
  }

  lemma {:induction false} RunIsShort(c: Config, steps: seq<Step>)
    requires c.Ok() && Exec(c, steps).Some?
    ensures |steps| + Measure(c, Exec(c, steps).value) <= Measure(c, Initial(c))
  {
    if steps != [] {
      RunIsShort(c, steps[..|steps| - 1]);
      RunKeepsInv(c, steps[..|steps| - 1]);
      StepDecreases(c, Exec(c, steps[..|steps| - 1]).value, steps[|steps| - 1]);
    }
  }

  /** Where no step is left everything has been made, consumed and reaped. */
  predicate Finished(c: Config, s: State) {
    && Done(s) && (forall k | 0 <= k < |s.kids| :: s.kids[k].Reaped?)
    && Sum(Made, s.kids) == c.Total() && Sum(Got, s.kids) == c.Total()
  }

  lemma DoneIsFinished(c: Config, s: State)
    requires Inv(c, s) && Done(s)
    ensures Finished(c, s)
  {
    SumFull(IsReaped, s.kids);
    MadeBound(c, s);
    SumSame(Got, Tickets, s.kids, s.kids);
    assert KidOk(c, s, c.prods);
  }

  /** The program's promise. Every run is finite, with a bound known in advance; a
      run that can go no further has finished, with exactly prodNum * msgNumPerProd
      items made and as many consumed, and every child reaped. */
  lemma EveryRunFinishes(c: Config, steps: seq<Step>)
    requires c.Ok() && Exec(c, steps).Some?
    ensures |steps| <= Measure(c, Initial(c))
    ensures (forall step :: Next(c, Exec(c, steps).value, step) == None) ==> Finished(c, Exec(c, steps).value)
  {
    RunIsShort(c, steps);
    RunKeepsInv(c, steps);
    var s := Exec(c, steps).value;
    MeasureNonNegative(c, s);
    if forall step :: Next(c, s, step) == None {
      if !Done(s) {
        var step := Progress(c, s);
        assert false;
      }
      DoneIsFinished(c, s);
    }
  }
}
