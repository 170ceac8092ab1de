/** The pipe of pipe.c: a ring of PIPESIZE bytes between 32-bit counters that wrap.
    Each method is one stretch of pipewrite, piperead or pipeclose under p->lock,
    from taking the lock (first or after a sleep) to releasing it; readers and
    writers interleave in any order between stretches. */
module Pipe {
  import opened Blocks

  const PIPESIZE := 512
  const WRAP := 0x1_0000_0000

  /** How a stretch ends: asleep on a channel, returned, or returned -1. */
  datatype Outcome = Slept | Returned | Failed

  // ----- counters modulo 2^32 -----

  /** The slot of position k survives the wrap because PIPESIZE divides 2^32. */
  lemma SlotOfCounter(k: nat)
    ensures k % WRAP % PIPESIZE == k % PIPESIZE
  {
    var q := k / WRAP;
    assert k == q * WRAP + k % WRAP;
    assert q * WRAP == q * 0x80_0000 * PIPESIZE;
    ModAdd(k % WRAP, q * 0x80_0000);
  }

  lemma ModAdd(a: nat, m: nat)
    ensures (a + m * PIPESIZE) % PIPESIZE == a % PIPESIZE
  {
    if m > 0 {
      ModAdd(a, m - 1);
      assert a + m * PIPESIZE == a + (m - 1) * PIPESIZE + PIPESIZE;
    }
  }

  /** The code's tests on wrapped counters decide full and empty exactly. */
  lemma CountersDecide(stored: nat, delivered: nat)
    requires delivered <= stored <= delivered + PIPESIZE
    ensures stored % WRAP == (delivered % WRAP + PIPESIZE) % WRAP <==> stored - delivered == PIPESIZE
    ensures delivered % WRAP == stored % WRAP <==> stored == delivered
    ensures (stored % WRAP - delivered % WRAP) % WRAP == stored - delivered
  {
  }

  lemma NextCounter(k: nat)
    ensures (k + 1) % WRAP == (k % WRAP + 1) % WRAP
  {
  }

  function Min(a: nat, b: nat): nat {
    if a < b then a else b
  }

  class Pipe {
    const data: array<byte>
    var nread: word
    var nwrite: word
    var readopen: bool
    var writeopen: bool
    var readersAsleep: set<nat>
    var writersAsleep: set<nat>

    /** Every byte ever stored and ever delivered, in order. */
    ghost var stored: seq<byte>
    ghost var delivered: seq<byte>

    /** FIFO: what was delivered is a prefix of what was stored, and the ring holds the rest. */
    ghost predicate Valid()
      reads this, data
    {
      && data.Length == PIPESIZE
      && delivered <= stored && |stored| <= |delivered| + PIPESIZE
      && nwrite == |stored| % WRAP && nread == |delivered| % WRAP
      && forall k | |delivered| <= k < |stored| :: data[k % PIPESIZE] == stored[k]
    }

    ghost predicate Empty() reads this { |stored| == |delivered| }
    ghost predicate Full() reads this { |stored| == |delivered| + PIPESIZE }

    /** No lost wakeup: whoever sleeps has nothing to do yet, and the other end is open. */
    ghost predicate SleepOk()
      reads this
    {
      && (readersAsleep != {} ==> Empty() && writeopen && readopen)
      && (writersAsleep != {} ==> Full() && readopen && writeopen)
    }

    constructor ()
      ensures Valid() && SleepOk() && readopen && writeopen && stored == [] && delivered == [] && fresh(data)
      ensures readersAsleep == {} && writersAsleep == {}
    {
      data := new byte[PIPESIZE](_ => 0);
      nread, nwrite, readopen, writeopen := 0, 0, true, true;
      readersAsleep, writersAsleep, stored, delivered := {}, {}, [], [];
    }

    /** data[nwrite++ % PIPESIZE] = c. */
    method Store(c: byte)
      requires Valid() && !Full()
      modifies this`nwrite, this`stored, data
      ensures Valid() && stored == old(stored) + [c]
    {
      SlotOfCounter(|stored|);
      NextCounter(|stored|);
      forall k | |delivered| <= k < |stored| ensures k % PIPESIZE != |stored| % PIPESIZE {
        DistinctSlots(k, |stored|);
      }
      data[nwrite % PIPESIZE] := c;
      nwrite := (nwrite + 1) % WRAP;
      stored := stored + [c];
    }

    static lemma DistinctSlots(k: nat, l: nat)
      requires k < l < k + PIPESIZE
      ensures k % PIPESIZE != l % PIPESIZE
    {
    }

    /** data[nread++ % PIPESIZE]. */
    method Fetch() returns (c: byte)
      requires Valid() && !Empty()
      modifies this`nread, this`delivered
      ensures Valid() && c == stored[|old(delivered)|] && delivered == old(delivered) + [c]
    {
      SlotOfCounter(|delivered|);
      NextCounter(|delivered|);
      c := data[nread % PIPESIZE];
      nread := (nread + 1) % WRAP;
      delivered := delivered + [c];
    }

    /** pipewrite from byte i on. It misses the wakeup of readers exactly when the writer
        was killed, a reader sleeps, and there is more to write than the pipe holds. */
    method Write(pid: nat, addr: seq<byte>, i: nat, killed: bool) returns (j: nat, out: Outcome)
      requires Valid() && i <= |addr| && pid !in writersAsleep && writeopen
      modifies this`nwrite, this`stored, this`readersAsleep, this`writersAsleep, data
      ensures Valid() && i <= j <= |addr| && stored == old(stored) + addr[i..j] && delivered == old(delivered)
      ensures var room := PIPESIZE - (|old(stored)| - |delivered|);
        && j == Min(|addr|, i + room) && (out == Returned <==> |addr| - i <= room)
        && (out == Slept <==> |addr| - i > room && readopen && !killed)
      ensures writersAsleep == if out == Slept then old(writersAsleep) + {pid} else old(writersAsleep)
      ensures readersAsleep == if out == Failed then old(readersAsleep) else {}
      ensures old(SleepOk()) ==>
        (SleepOk() <==> !(killed && old(readersAsleep) != {} && |addr| - i > PIPESIZE))
    {
      j := i;
      while j < |addr|
        invariant i <= j <= |addr| && Valid() && stored == old(stored) + addr[i..j]
        invariant writersAsleep == old(writersAsleep) && readersAsleep == old(readersAsleep)
      {
        CountersDecide(|stored|, |delivered|);
        if nwrite == (nread + PIPESIZE) % WRAP {
          if !readopen || killed {
            return j, Failed;
          }
          readersAsleep := {};
          writersAsleep := writersAsleep + {pid};
          return j, Slept;
        }
        assert addr[i..j + 1] == addr[i..j] + [addr[j]];
        Store(addr[j]);
        j := j + 1;
      }
      readersAsleep := {};
      out := Returned;
    }

    /** piperead of up to n bytes. */
    method Read(pid: nat, n: nat, killed: bool) returns (got: seq<byte>, out: Outcome)
      requires Valid() && pid !in readersAsleep && readopen
      modifies this`nread, this`delivered, this`readersAsleep, this`writersAsleep
      ensures Valid() && stored == old(stored) && delivered == old(delivered) + got
      ensures old(SleepOk()) ==> SleepOk()
      ensures out == Slept <==> old(Empty()) && writeopen && !killed
      ensures out == Failed <==> old(Empty()) && writeopen && killed
      ensures |got| == if out == Returned then Min(n, |stored| - |old(delivered)|) else 0
      ensures readersAsleep == if out == Slept then old(readersAsleep) + {pid} else old(readersAsleep)
      ensures writersAsleep == if out == Returned then {} else old(writersAsleep)
    {
      CountersDecide(|stored|, |delivered|);
      got := [];
      if nread == nwrite && writeopen {
        if killed {
          return got, Failed;
        }
        readersAsleep := readersAsleep + {pid};
        return got, Slept;
      }
      var i := 0;
      while i < n
        invariant 0 <= i <= n && |got| == i && Valid() && delivered == old(delivered) + got
        invariant readersAsleep == old(readersAsleep)
      {
        CountersDecide(|stored|, |delivered|);
        if nread == nwrite {
          break;
        }
        var c := Fetch();
        got := got + [c];
        i := i + 1;
      }
      writersAsleep := {};
      out := Returned;
    }

    /** pipeclose; a process asleep in an end's call keeps that end open. */
    method Close(writable: bool) returns (freed: bool)
      requires Valid() && if writable then writersAsleep == {} else readersAsleep == {}
      modifies this`readopen, this`writeopen, this`readersAsleep, this`writersAsleep
      ensures Valid() && (old(SleepOk()) ==> SleepOk()) && freed == (!readopen && !writeopen)
      ensures if writable then !writeopen && readopen == old(readopen) else !readopen && writeopen == old(writeopen)
      ensures readersAsleep == if writable then {} else old(readersAsleep)
      ensures writersAsleep == if writable then old(writersAsleep) else {}
    {
      if writable {
        writeopen := false;
        readersAsleep := {};
      } else {
        readopen := false;
        writersAsleep := {};
      }
      freed := !readopen && !writeopen;
    }

    /** kill of a process asleep in the pipe: it is no longer asleep, and its next stretch
        finds it killed. */
    method Kill(pid: nat)
      requires Valid()
      modifies this`readersAsleep, this`writersAsleep
      ensures Valid() && readersAsleep == old(readersAsleep) - {pid} && writersAsleep == old(writersAsleep) - {pid}
      ensures old(SleepOk()) ==> SleepOk()
    {
      readersAsleep, writersAsleep := readersAsleep - {pid}, writersAsleep - {pid};
    }
  }

  /** The input that misses the wakeup: process 1 sleeps in piperead, and process 2, killed,
      writes one byte more than the pipe holds. The pipe is full, both ends are open, and
      process 1 sleeps on. */
  method MissedWakeup(addr: seq<byte>) returns (p: Pipe)
    requires |addr| == PIPESIZE + 1
    ensures p.Valid() && !p.SleepOk() && p.Full() && p.readopen && p.writeopen && 1 in p.readersAsleep
  {
    p := new Pipe();
    var got, slept := p.Read(1, 1, false);
    var j, out := p.Write(2, addr, 0, true);
  }
}
