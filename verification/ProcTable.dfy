/** The loops of the process table, each proved to do to the table what the step of the
    state machine says. */
module ProcTable {
  import opened Blocks
  import opened Proc

  /** What one hold of the lock in wait comes to. */
  datatype WaitResult = Got(pid: int) | Refused | Slept

  /** One entry when exit's loop has passed the entries before p. */
  function Midway(w: Proc, cur: nat, passed: bool, wake: bool): Proc {
    var q := if passed && Child(w, cur) then w.(parent := Some(0)) else w;
    if wake && q.state == SLEEPING && q.chan == OfProc(0) then q.(state := RUNNABLE) else q
  }

  predicate ZombieBefore(ps: seq<Proc>, cur: nat, n: nat) {
    exists i :: 0 <= i < |ps| && i < n && ps[i].state == ZOMBIE && Child(ps[i], cur)
  }

  /** exit touches nobody's pid, channel or mark; it hands its own children to init and nobody
      else; it ends itself, and wakes who waits for it or, if it passes a zombie on, init. */
  predicate ExitLeaves(was: seq<Proc>, now: seq<Proc>, cur: nat)
    requires cur < |was| && was[cur].parent.Some?
  {
    && |now| == |was|
    && (forall i | 0 <= i < |was| ::
         now[i].pid == was[i].pid && now[i].chan == was[i].chan && now[i].killed == was[i].killed)
    && (forall i | 0 <= i < |was| ::
         now[i].parent == if was[i].parent == Some(cur) then Some(0) else was[i].parent)
    && forall i | 0 <= i < |was| ::
         now[i].state ==
           if i == cur then ZOMBIE
           else if was[i].state == SLEEPING && WokenByExit(was, cur, was[i].chan) then RUNNABLE
           else was[i].state
  }

  class ProcTable {
    const procs: array<Proc>
    var nextpid: int

    constructor (nproc: nat)
      requires nproc > 0
      ensures fresh(procs) && procs.Length == nproc && nextpid == 1 && forall i | 0 <= i < nproc :: procs[i] == Reaped()
    {
      procs := new Proc[nproc](i => Reaped());
      nextpid := 1;
    }

    /** wakeup1. */
    method Wakeup1(c: Chan)
      modifies procs
      ensures procs[..] == Woken(old(procs[..]), c)
    {
      ghost var was := procs[..];
      var p := 0;
      while p < procs.Length
        invariant 0 <= p <= procs.Length
        invariant forall i | 0 <= i < procs.Length :: procs[i] == if i < p then Woken(was, c)[i] else was[i]
      {
        if procs[p].state == SLEEPING && procs[p].chan == c {
          procs[p] := procs[p].(state := RUNNABLE);
        }
        p := p + 1;
      }
    }

    /** allocproc's part under the lock: the slot taken, if there is one. */
    method Allocproc() returns (np: Option<nat>)
      modifies this`nextpid, procs
      ensures np.None? ==>
        && procs[..] == old(procs[..]) && nextpid == old(nextpid)
        && forall i | 0 <= i < procs.Length :: procs[i].state != UNUSED
      ensures np.Some? ==> FirstUnused(old(procs[..]), np.value) && nextpid == old(nextpid) + 1
      ensures np.Some? ==>
        procs[..] == old(procs[..])[np.value := old(procs[..])[np.value].(state := EMBRYO, pid := old(nextpid))]
    {
      var p := 0;
      while p < procs.Length
        invariant 0 <= p <= procs.Length && forall i | 0 <= i < p :: procs[i].state != UNUSED
      {
        if procs[p].state == UNUSED {
          procs[p] := procs[p].(state := EMBRYO, pid := nextpid);
          nextpid := nextpid + 1;
          return Some(p);
        }
        p := p + 1;
      }
      return None;
    }

    /** exit's part under the lock. */
    method Exit(cur: nat)
      requires cur < procs.Length && procs[cur].parent.Some?
      modifies procs
      ensures procs[..] == Exited(old(procs[..]), cur)
      ensures ExitLeaves(old(procs[..]), procs[..], cur)
    {
      ghost var was := procs[..];
      Wakeup1(OfProc(procs[cur].parent.value));
      ghost var w := procs[..];
      var p := 0;
      while p < procs.Length
        invariant 0 <= p <= procs.Length
        invariant forall i | 0 <= i < procs.Length :: procs[i] == Midway(w[i], cur, i < p, ZombieBefore(w, cur, p))
      {
        ghost var before := procs[..];
        NextZombie(w, cur, p);
        if procs[p].parent == Some(cur) {
          procs[p] := procs[p].(parent := Some(0));
          if procs[p].state == ZOMBIE {
            Wakeup1(OfProc(0));
          }
        }
        p := p + 1;
      }
      AllZombies(w, cur);
      ghost var mid := procs[..];
      procs[cur] := procs[cur].(state := ZOMBIE);
      ExitDone(was, mid, procs[..], cur);
    }

    /** wait, from one acquiring of the lock or waking to the release or the next sleep. */
    method Wait(cur: nat) returns (r: WaitResult)
      requires cur < procs.Length && procs[cur].state != ZOMBIE
      modifies procs
      ensures r.Got? ==> exists p: nat ::
        && FirstZombie(old(procs[..]), cur, p) && r.pid == old(procs[..])[p].pid
        && procs[..] == Tidied(old(procs[..]), cur)[p := Reaped()]
      ensures r.Refused? ==>
        !HasZombie(old(procs[..]), cur) && (!HasChild(old(procs[..]), cur) || old(procs[cur]).killed)
      ensures r.Refused? ==> procs[..] == Tidied(old(procs[..]), cur)
      ensures r.Slept? ==> !HasZombie(old(procs[..]), cur) && HasChild(old(procs[..]), cur) && !old(procs[cur]).killed
      ensures r.Slept? ==> procs[..] == old(procs[..])[cur := old(procs[cur]).(chan := OfProc(cur), state := SLEEPING)]
    {
      ghost var was := procs[..];
      procs[cur] := procs[cur].(chan := NoChan);
      ghost var now := procs[..];
      assert forall i | 0 <= i < |was| :: now[i].parent == was[i].parent && now[i].state == was[i].state;
      var havekids := false;
      var p := 0;
      while p < procs.Length
        invariant 0 <= p <= procs.Length && procs[..] == now
        invariant havekids <==> exists i :: 0 <= i < |was| && i < p && Child(was[i], cur)
        invariant forall i | 0 <= i < p :: !(was[i].state == ZOMBIE && Child(was[i], cur))
      {
        if procs[p].parent == Some(cur) {
          assert Child(was[p], cur);
          havekids := true;
          if procs[p].state == ZOMBIE {
            r := Got(procs[p].pid);
            procs[p] := Reaped();
            assert FirstZombie(was, cur, p);
            return;
          }
        }
        p := p + 1;
      }
      if !havekids || procs[cur].killed {
        return Refused;
      }
      procs[cur] := procs[cur].(chan := OfProc(cur), state := SLEEPING);
      return Slept;
    }

    /** kill: the first slot that holds the pid, used or not. */
    method Kill(pid: int) returns (r: int)
      modifies procs
      ensures r == -1 <==> forall i | 0 <= i < |old(procs[..])| :: old(procs[..])[i].pid != pid
      ensures r == -1 ==> procs[..] == old(procs[..])
      ensures r != -1 ==> r == 0 && exists p: nat :: KilledAt(old(procs[..]), procs[..], p, pid)
    {
      ghost var was := procs[..];
      var p := 0;
      while p < procs.Length
        invariant 0 <= p <= procs.Length && procs[..] == was && forall i | 0 <= i < p :: was[i].pid != pid
      {
        if procs[p].pid == pid {
          procs[p] := procs[p].(killed := true,
            state := if procs[p].state == SLEEPING then RUNNABLE else procs[p].state);
          assert KilledAt(was, procs[..], p, pid);
          return 0;
        }
        p := p + 1;
      }
      return -1;
    }
  }

  /** The first slot with the pid is marked, and made runnable if it slept. */
  predicate KilledAt(was: seq<Proc>, now: seq<Proc>, p: nat, pid: int) {
    && p < |was| && was[p].pid == pid && (forall i | 0 <= i < p :: was[i].pid != pid)
    && now == was[p := was[p].(killed := true, state := if was[p].state == SLEEPING then RUNNABLE else was[p].state)]
  }

  /** sleep's tidying up. */
  function Tidied(ps: seq<Proc>, cur: nat): seq<Proc>
    requires cur < |ps|
  {
    ps[cur := ps[cur].(chan := NoChan)]
  }

  lemma ExitDone(was: seq<Proc>, mid: seq<Proc>, now: seq<Proc>, cur: nat)
    requires cur < |was| == |mid| && was[cur].parent.Some? && now == mid[cur := mid[cur].(state := ZOMBIE)]
    requires var w := Woken(was, OfProc(was[cur].parent.value));
      forall i | 0 <= i < |was| :: mid[i] == Midway(w[i], cur, true, HasZombie(w, cur))
    ensures now == Exited(was, cur) && ExitLeaves(was, now, cur)
  {
    SameZombiesWoken(was, OfProc(was[cur].parent.value), cur);
  }

  lemma NextZombie(ps: seq<Proc>, cur: nat, p: nat)
    requires p < |ps|
    ensures ZombieBefore(ps, cur, p + 1) <==> ZombieBefore(ps, cur, p) || (ps[p].state == ZOMBIE && Child(ps[p], cur))
  {
    if ZombieBefore(ps, cur, p) {
      var i :| 0 <= i < |ps| && i < p && ps[i].state == ZOMBIE && Child(ps[i], cur);
      assert i < p + 1;
    }
  }

  lemma AllZombies(ps: seq<Proc>, cur: nat)
    ensures ZombieBefore(ps, cur, |ps|) <==> HasZombie(ps, cur)
  {
    if HasZombie(ps, cur) {
      var i :| 0 <= i < |ps| && ps[i].state == ZOMBIE && Child(ps[i], cur);
      assert i < |ps|;
    }
  }
}
