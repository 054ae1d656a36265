/**
 Pipes: a ring of 512 bytes with two free-running 32-bit counters. A method is
 one stay inside the pipe's lock, from `acquire` or the return from `sleep` to
 the next `sleep` or `release`; an interleaving of readers and writers is a
 sequence of calls.
 */
module Pipe {

  const PIPESIZE: nat := 512
  const UINT: nat := 0x1_0000_0000

  type Byte = x: int | 0 <= x < 256

  /** How a stay in the lock ends: the call returns, fails with -1, or sleeps
      and resumes later with the same arguments. */
  datatype Written = Done | WriteFailed | WriteSleeps(i: nat)
  datatype Taken = Got(bytes: seq<Byte>) | ReadFailed | ReadSleeps

  // ---- Counters modulo 2^32 ----

  lemma ModAdd(a: nat, b: nat)
    ensures (a % UINT + b) % UINT == (a + b) % UINT
  {
    var q := a / UINT;
    assert a + b == q * UINT + (a % UINT + b);
    ModMultiple(q, a % UINT + b);
  }

  lemma ModMultiple(q: nat, r: nat)
    ensures (q * UINT + r) % UINT == r % UINT
  {
  }

  /** Close counters agree modulo 2^32 only if they are equal. */
  lemma CloseCounters(a: nat, b: nat)
    requires a <= b < a + UINT
    ensures a % UINT == b % UINT <==> a == b
  {
    var d := b - a;
    ModAdd(a, d);
    assert a % UINT + d >= UINT ==> (a % UINT + d) % UINT == a % UINT + d - UINT;
  }

  /** A 32-bit counter indexes the ring like the true count. */
  lemma RingIndex(a: nat)
    ensures a % UINT % PIPESIZE == a % PIPESIZE
  {
    assert a == a / UINT * 8388608 * PIPESIZE + a % UINT;
    IndexMultiple(a / UINT * 8388608, a % UINT);
  }

  lemma IndexMultiple(q: nat, r: nat)
    ensures (q * PIPESIZE + r) % PIPESIZE == r % PIPESIZE
  {
  }

  /** Bytes less than a lap apart have different places. */
  lemma DifferentPlaces(a: nat, b: nat)
    requires a < b < a + PIPESIZE
    ensures a % PIPESIZE != b % PIPESIZE
  {
  }

  class Pipe {
    const data: array<Byte>
    var nread: nat
    var nwrite: nat
    var readopen: bool
    var writeopen: bool
    var readersAsleep: set<nat>  // processes asleep on &p->nread
    var writersAsleep: set<nat>  // processes asleep on &p->nwrite
    ghost var written: seq<Byte>  // every byte ever put in
    ghost var taken: nat          // how many of them have been taken out

    ghost function Held(): (n: int)
      reads this
    {
      |written| - taken
    }

    /** The bytes still in the ring are those written and not taken, in order,
        and the wrapped counters know where they are. */
    ghost predicate Valid()
      reads this, data
    {
      && data.Length == PIPESIZE
      && taken <= |written| <= taken + PIPESIZE
      && nread == taken % UINT && nwrite == |written| % UINT
      && forall k :: taken <= k < |written| ==> data[k % PIPESIZE] == written[k]
    }

    /** No reader sleeps while there is something to read or no more to come. */
    ghost predicate ReadersServed()
      reads this
    {
      readersAsleep != {} ==> Held() == 0 && writeopen
    }

    /** No writer sleeps while there is room or nobody left to read. */
    ghost predicate WritersServed()
      reads this
    {
      writersAsleep != {} ==> Held() == PIPESIZE && readopen
    }

    constructor ()
      ensures Valid() && ReadersServed() && WritersServed()
      ensures written == [] && taken == 0 && readopen && writeopen && fresh(data)
      ensures readersAsleep == writersAsleep == {}
    {
      data := new Byte[PIPESIZE](i => 0);
      nread, nwrite := 0, 0;
      readopen, writeopen := true, true;
      readersAsleep, writersAsleep := {}, {};
      written, taken := [], 0;
    }

    method Full() returns (full: bool)
      requires Valid()
      ensures full <==> Held() == PIPESIZE
    {
      CloseCounters(|written|, taken + PIPESIZE);
      ModAdd(taken, PIPESIZE);
      full := nwrite == (nread + PIPESIZE) % UINT;
    }

    method Empty() returns (empty: bool)
      requires Valid()
      ensures empty <==> Held() == 0
    {
      CloseCounters(taken, |written|);
      empty := nread == nwrite;
    }

    method Put(b: Byte)
      requires Valid() && Held() < PIPESIZE
      modifies this`nwrite, this`written, data
      ensures Valid() && written == old(written) + [b]
    {
      ghost var n := |written|;
      RingIndex(n);
      ModAdd(n, 1);
      forall k | taken <= k < n
        ensures k % PIPESIZE != n % PIPESIZE
      {
        DifferentPlaces(k, n);
      }
      data[nwrite % PIPESIZE] := b;
      nwrite := (nwrite + 1) % UINT;
      written := written + [b];
    }

    method Take() returns (b: Byte)
      requires Valid() && Held() > 0
      modifies this`nread, this`taken
      ensures Valid() && taken == old(taken) + 1 && b == written[old(taken)]
    {
      RingIndex(taken);
      ModAdd(taken, 1);
      b := data[nread % PIPESIZE];
      nread := (nread + 1) % UINT;
      taken := taken + 1;
    }

    /** `pipewrite` of `addr` from byte `i` on. Bytes go in until all are in or
        the ring is full; a full ring with no reader, or a killed writer, fails
        without a wakeup. */
    method Write(pid: nat, addr: seq<Byte>, i: nat, killed: bool) returns (r: Written)
      requires Valid() && i <= |addr|
      modifies this`nwrite, this`written, data, this`readersAsleep, this`writersAsleep
      ensures Valid()
      ensures var room := PIPESIZE - old(Held());
              var n := if |addr| - i <= room then |addr| - i else room;
              written == old(written) + addr[i..i + n] &&
              r == (if |addr| - i <= room then Done
                    else if !readopen || killed then WriteFailed
                    else WriteSleeps(i + n))
      ensures readersAsleep == if r == WriteFailed then old(readersAsleep) else {}
      ensures writersAsleep == old(writersAsleep) + if r.WriteSleeps? then {pid} else {}
      ensures old(WritersServed()) ==> WritersServed()
      // a reader is left asleep beside a full ring exactly when a writer that
      // must fail had more than a ringful to write
      ensures old(ReadersServed()) ==>
                (ReadersServed() <==> !(old(readersAsleep) != {} && |addr| - i > PIPESIZE && (!readopen || killed)))
    {
      var k := i;
      ghost var room := PIPESIZE - Held();
      assert addr[i..i] == [];
      while k < |addr|
        invariant i <= k <= |addr| && k - i <= room
        invariant Valid() && written == old(written) + addr[i..k]
        invariant readersAsleep == old(readersAsleep) && writersAsleep == old(writersAsleep)
      {
        var full := Full();
        if full {
          if !readopen || killed {
            return WriteFailed;
          }
          readersAsleep := {};
          writersAsleep := writersAsleep + {pid};
          return WriteSleeps(k);
        }
        Put(addr[k]);
        assert addr[i..k + 1] == addr[i..k] + [addr[k]];
        k := k + 1;
      }
      readersAsleep := {};
      return Done;
    }

    /** `piperead` of at most `n` bytes: the oldest ones, as they were written.
        A read of some length yields nothing only from an empty pipe that
        nobody can write any more. */
    method Read(pid: nat, n: nat, killed: bool) returns (r: Taken)
      requires Valid()
      modifies this`nread, this`taken, this`readersAsleep, this`writersAsleep
      ensures Valid()
      ensures r.ReadFailed? || r.ReadSleeps? <==> old(Held()) == 0 && writeopen
      ensures r.ReadFailed? ==> killed
      ensures r.ReadSleeps? ==> !killed && readersAsleep == old(readersAsleep) + {pid}
      ensures !r.Got? ==> taken == old(taken) && writersAsleep == old(writersAsleep)
      ensures r.Got? ==>
                |r.bytes| == (if n <= old(Held()) then n else old(Held())) &&
                taken == old(taken) + |r.bytes| && r.bytes == written[old(taken)..taken]
      ensures r.Got? ==> writersAsleep == {}
      ensures !r.ReadSleeps? ==> readersAsleep == old(readersAsleep)
      ensures r == Got([]) && n > 0 ==> Held() == 0 && !writeopen
      ensures old(ReadersServed()) && old(WritersServed()) ==> WritersServed()
      ensures old(ReadersServed()) ==> ReadersServed()
    {
      var empty := Empty();
      if empty && writeopen {
        if killed {
          return ReadFailed;
        }
        readersAsleep := readersAsleep + {pid};
        return ReadSleeps;
      }
      var bytes := [];
      var i := 0;
      assert written[taken..taken] == [];
      while i < n
        invariant 0 <= i <= n && i == |bytes| && Valid()
        invariant taken == old(taken) + i && bytes == written[old(taken)..taken]
        invariant readersAsleep == old(readersAsleep)
      {
        empty := Empty();
        if empty {
          break;
        }
        ghost var before := taken;
        var b := Take();
        assert written[old(taken)..taken] == written[old(taken)..before] + [b];
        bytes := bytes + [b];
        i := i + 1;
      }
      writersAsleep := {};
      return Got(bytes);
    }

    /** `pipeclose` of one end wakes the sleepers of the other. When both ends are
        closed the pipe is freed. */
    method Close(writable: bool) returns (freed: bool)
      requires Valid()
      modifies this`readopen, this`writeopen, this`readersAsleep, this`writersAsleep
      ensures Valid()
      ensures writable ==>
        !writeopen && readersAsleep == {} && readopen == old(readopen) && writersAsleep == old(writersAsleep)
      ensures !writable ==>
        !readopen && writersAsleep == {} && writeopen == old(writeopen) && readersAsleep == old(readersAsleep)
      ensures freed <==> !readopen && !writeopen
      ensures freed && old(ReadersServed()) && old(WritersServed()) ==> readersAsleep == writersAsleep == {}
      ensures old(ReadersServed()) ==> ReadersServed()
      ensures old(WritersServed()) ==> WritersServed()
    {
      if writable {
        writeopen := false;
        readersAsleep := {};
      } else {
        readopen := false;
        writersAsleep := {};
      }
      freed := !readopen && !writeopen;
    }
  }

  /** A reader is asleep on an empty pipe; a killed writer of one byte more than
      the ring holds fills the ring, fails, and leaves the reader asleep. */
  method StrandedReader() returns (p: Pipe)
    ensures p.Valid() && !p.ReadersServed() && p.readersAsleep == {1} && p.Held() == PIPESIZE
  {
    p := new Pipe();
    var asleep := p.Read(1, 1, false);
    assert p.readersAsleep == {1};
    var failed := p.Write(2, seq(PIPESIZE + 1, i => 0), 0, true);
  }
}
