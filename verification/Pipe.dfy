/** pipe.c: a ring of 512 bytes between free-running 32-bit counters. Each method is one
    critical section, from taking the pipe's lock to releasing it or going to sleep, so any
    interleaving of readers, writers and kills is a sequence of calls; a process that was woken
    or killed in its sleep goes on with another call. */
module Pipe {
  import opened Blocks

  const PIPESIZE: nat := 512
  const WRAP: nat := 0x1_0000_0000

  type Proc = nat

  /** How a section ends: the call returns, fails with -1, or sleeps to go on later. */
  datatype Outcome = Done | Failed | Blocked

  /** The counters still tell the ends of the ring apart after they have wrapped around. */
  lemma Counters(taken: nat, written: nat)
    requires taken <= written <= taken + PIPESIZE
    ensures written % WRAP == (taken % WRAP + PIPESIZE) % WRAP <==> written == taken + PIPESIZE
    ensures taken % WRAP == written % WRAP <==> taken == written
    ensures written % WRAP % PIPESIZE == written % PIPESIZE && taken % WRAP % PIPESIZE == taken % PIPESIZE
  {
    Ahead(taken, written - taken);
    Ahead(taken, PIPESIZE);
    RingOfWrap(taken);
    RingOfWrap(written);
  }

  lemma Ahead(n: nat, x: nat)
    requires x <= PIPESIZE
    ensures (n + x) % WRAP == if n % WRAP + x < WRAP then n % WRAP + x else n % WRAP + x - WRAP
    ensures (n + x) % WRAP == (n % WRAP + x) % WRAP
  {
    var q, r := n / WRAP, n % WRAP;
    assert n == WRAP * q + r;
    if r + x < WRAP {
      assert n + x == WRAP * q + (r + x);
    } else {
      assert n + x == WRAP * (q + 1) + (r + x - WRAP);
    }
  }

  lemma RingOfWrap(n: nat)
    ensures n % WRAP % PIPESIZE == n % PIPESIZE
  {
    var q, r := n / WRAP, n % WRAP;
    assert n == PIPESIZE * (0x80_0000 * q) + r;
  }

  /** Positions less than a ring apart use different slots. */
  lemma OwnSlot(i: nat, n: nat)
    requires i < n < i + PIPESIZE
    ensures i % PIPESIZE != n % PIPESIZE
  {
  }

  lemma Bump(n: nat)
    ensures (n % WRAP + 1) % WRAP == (n + 1) % WRAP
  {
  }

  class Pipe {
    const data: array<Byte>
    var nread: nat
    var nwrite: nat
    var readopen: bool
    var writeopen: bool
    var sleepingReaders: set<Proc>  // asleep on &nread
    var sleepingWriters: set<Proc>  // asleep on &nwrite
    var killed: set<Proc>           // marked by kill
    ghost var written: seq<Byte>    // all bytes ever put in
    ghost var taken: seq<Byte>      // all bytes ever got out

    ghost predicate Valid()
      reads this, data
    {
      && data.Length == PIPESIZE
      && |taken| <= |written| <= |taken| + PIPESIZE && taken == written[..|taken|]
      && nread == |taken| % WRAP && nwrite == |written| % WRAP
      && forall i :: |taken| <= i < |written| ==> data[i % PIPESIZE] == written[i]
    }

    /** No reader sleeps while there is something to read or no one left to write. */
    ghost predicate ReadersRest()
      reads this
    {
      sleepingReaders != {} ==> |written| == |taken| && writeopen
    }

    /** No writer sleeps while there is room. */
    ghost predicate WritersRest()
      reads this
    {
      sleepingWriters != {} ==> |written| == |taken| + PIPESIZE && readopen
    }

    constructor ()
      ensures Valid() && ReadersRest() && WritersRest() && fresh(data) && written == taken == [] && readopen && writeopen
      ensures sleepingReaders == {} && sleepingWriters == {} && killed == {}
    {
      data := new Byte[PIPESIZE](_ => 0);
      nread, nwrite, readopen, writeopen := 0, 0, true, true;
      sleepingReaders, sleepingWriters, killed, written, taken := {}, {}, {}, [], [];
    }

    /** kill: mark p and make it RUNNABLE if it sleeps, on whatever channel. */
    method Kill(p: Proc)
      requires Valid()
      modifies this`killed, this`sleepingReaders, this`sleepingWriters
      ensures Valid() && killed == old(killed) + {p}
      ensures sleepingReaders == old(sleepingReaders) - {p} && sleepingWriters == old(sleepingWriters) - {p}
      ensures (old(ReadersRest()) ==> ReadersRest()) && (old(WritersRest()) ==> WritersRest())
    {
      killed := killed + {p};
      sleepingReaders, sleepingWriters := sleepingReaders - {p}, sleepingWriters - {p};
    }

    method PutByte(b: Byte)
      requires Valid() && |written| < |taken| + PIPESIZE
      modifies this`nwrite, this`written, data
      ensures Valid() && written == old(written) + [b]
    {
      Counters(|taken|, |written|);
      forall i | |taken| <= i < |written| ensures i % PIPESIZE != |written| % PIPESIZE {
        OwnSlot(i, |written|);
      }
      Bump(|written|);
      data[nwrite % PIPESIZE] := b;
      nwrite := (nwrite + 1) % WRAP;
      written := written + [b];
    }

    method GetByte() returns (b: Byte)
      requires Valid() && |taken| < |written|
      modifies this`nread, this`taken
      ensures Valid() && b == written[|old(taken)|] && taken == old(taken) + [b]
    {
      Counters(|taken|, |written|);
      Bump(|taken|);
      b := data[nread % PIPESIZE];
      nread := (nread + 1) % WRAP;
      taken := taken + [b];
    }

    /** pipewrite by process p, from byte i of addr on: until all is in, or the ring is full. Then a
        writer that was killed, or has no reader, fails; any other sleeps. */
    method WriteSome(p: Proc, addr: seq<Byte>, i: nat) returns (o: Outcome, j: nat)
      requires Valid() && WritersRest() && i <= |addr| && p !in sleepingWriters
      modifies this`nwrite, this`written, this`sleepingReaders, this`sleepingWriters, data
      ensures Valid() && WritersRest() && i <= j <= |addr|
      ensures written == old(written) + addr[i..j] && taken == old(taken)
      ensures o == Done <==> |addr| - i <= |taken| + PIPESIZE - |old(written)|
      ensures o == Done ==> j == |addr|
      ensures o != Done ==> |written| == |taken| + PIPESIZE && (o == Failed <==> !readopen || p in killed)
      ensures o == Blocked ==> sleepingWriters == old(sleepingWriters) + {p}
      ensures o != Blocked ==> sleepingWriters == old(sleepingWriters)
      ensures sleepingReaders == if o == Failed then old(sleepingReaders) else {}
      // A writer that fails half way does not wake the readers, and that is the only way in
      // which one can be left asleep next to a ring with data in it.
      ensures old(ReadersRest()) ==>
                (ReadersRest() <==> !(old(sleepingReaders) != {} && (p in killed || !readopen) && |addr| - i > PIPESIZE))
    {
      j := i;
      ghost var w := written;
      while j < |addr|
        invariant i <= j <= |addr| && Valid() && written == w + addr[i..j]
        invariant sleepingReaders == old(sleepingReaders) && sleepingWriters == old(sleepingWriters)
        invariant sleepingWriters != {} ==> j == i
      {
        Counters(|taken|, |written|);
        if nwrite == (nread + PIPESIZE) % WRAP {
          if !readopen || p in killed {
            return Failed, j;
          }
          sleepingReaders := {};
          sleepingWriters := sleepingWriters + {p};
          return Blocked, j;
        }
        PutByte(addr[j]);
        j := j + 1;
      }
      sleepingReaders := {};
      o := Done;
    }

    /** piperead by process p: sleep while the ring is empty and a writer remains, else take up to n
        bytes, in order, and wake the writers. */
    method ReadSome(p: Proc, n: nat) returns (o: Outcome, addr: seq<Byte>)
      requires Valid() && WritersRest() && p !in sleepingReaders
      modifies this`nread, this`taken, this`sleepingReaders, this`sleepingWriters
      ensures Valid() && WritersRest() && (old(ReadersRest()) ==> ReadersRest()) && written == old(written)
      ensures o == Done <==> |old(taken)| < |written| || !writeopen
      ensures o == Failed ==> p in killed
      ensures o == Blocked ==> p !in killed
      ensures sleepingReaders == old(sleepingReaders) + if o == Blocked then {p} else {}
      ensures o != Done ==> addr == [] && taken == old(taken)
      ensures o == Done ==> sleepingWriters == {} && taken == old(taken) + addr
      ensures o == Done ==> |addr| == if n < |written| - |old(taken)| then n else |written| - |old(taken)|
    {
      Counters(|taken|, |written|);
      addr := [];
      if nread == nwrite && writeopen {
        if p in killed {
          return Failed, addr;
        }
        sleepingReaders := sleepingReaders + {p};
        return Blocked, addr;
      }
      ghost var t := taken;
      var i := 0;
      while i < n
        invariant i <= n && Valid() && |addr| == i && taken == t + addr
        invariant sleepingReaders == old(sleepingReaders)
      {
        Counters(|taken|, |written|);
        if nread == nwrite {
          break;
        }
        var b := GetByte();
        addr := addr + [b];
        i := i + 1;
      }
      sleepingWriters := {};
      o := Done;
    }

    /** Close one end and wake whoever waits for the other. The memory of the pipe is freed with
        the second end, and then nobody sleeps on it unless a wakeup had been lost before. */
    method Close(writable: bool) returns (freed: bool)
      requires Valid() && WritersRest()
      modifies this`readopen, this`writeopen, this`sleepingReaders, this`sleepingWriters
      ensures freed <==> !readopen && !writeopen
      ensures freed && old(ReadersRest()) ==> sleepingReaders == {} && sleepingWriters == {}
      ensures Valid() && WritersRest() && (old(ReadersRest()) ==> ReadersRest()) && written == old(written) && taken == old(taken)
      ensures readopen == (old(readopen) && writable) && writeopen == (old(writeopen) && !writable)
    {
      if writable {
        writeopen := false;
        sleepingReaders := {};
      } else {
        readopen := false;
        sleepingWriters := {};
      }
      freed := !readopen && !writeopen;
    }
  }

  /** The failing case, from a new pipe on: a reader goes to sleep, a writer of 513 bytes is killed,
      fills the ring and fails, and the reader still sleeps, next to 512 bytes. */
  method LostWakeup(reader: Proc, writer: Proc, addr: seq<Byte>) returns (p: Pipe)
    requires reader != writer && |addr| == PIPESIZE + 1
    ensures fresh(p) && fresh(p.data) && p.Valid() && p.WritersRest()
    ensures !p.ReadersRest() && p.sleepingReaders == {reader} && p.written == addr[..PIPESIZE] && p.taken == []
  {
    p := new Pipe();
    var o, got := p.ReadSome(reader, 1);
    p.Kill(writer);
    var j;
    o, j := p.WriteSome(writer, addr, 0);
    assert p.written == addr[..j];
  }
}
