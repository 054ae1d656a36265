/**
 The lottery: the scheduler adds up the tickets of the RUNNABLE processes,
 draws a ticket number and runs the process at which the running sum first
 exceeds it.
 */
module Lottery {
  import opened Lfsr
  import opened Params
  import opened Procs

  type Table = seq<Proc>

  /** The tickets a slot brings to the draw. */
  function Share(p: Proc): (s: nat)
  {
    if p.state == RUNNABLE then p.tickets else 0
  }

  function Shares(t: Table): (s: seq<nat>)
    ensures |s| == |t| && forall i :: 0 <= i < |t| ==> s[i] == Share(t[i])
  {
    seq(|t|, i requires 0 <= i < |t| => Share(t[i]))
  }

  /** The tickets held by the first `n` slots. */
  function Passed(shares: seq<nat>, n: nat): (s: nat)
    requires n <= |shares|
  {
    if n == 0 then 0 else Passed(shares, n - 1) + shares[n - 1]
  }

  function Total(shares: seq<nat>): (s: nat)
  {
    Passed(shares, |shares|)
  }

  /** Slot `i` holds ticket number `t`. */
  predicate Holds(shares: seq<nat>, i: nat, t: nat)
  {
    i < |shares| && Passed(shares, i) <= t < Passed(shares, i + 1)
  }

  lemma {:induction false} PassedMonotone(shares: seq<nat>, m: nat, n: nat)
    requires m <= n <= |shares|
    ensures Passed(shares, m) <= Passed(shares, n)
    decreases n
  {
    if m < n {
      PassedMonotone(shares, m, n - 1);
    }
  }

  /** Every ticket number below the total is held by exactly one slot. */
  lemma TicketHasOneHolder(shares: seq<nat>, t: nat)
    requires t < Total(shares)
    ensures exists i: nat :: Holds(shares, i, t)
    ensures forall i: nat, j: nat :: Holds(shares, i, t) && Holds(shares, j, t) ==> i == j
  {
    var i := FindHolder(shares, t, |shares|);
    forall i: nat, j: nat | Holds(shares, i, t) && Holds(shares, j, t)
      ensures i == j
    {
      if i < j {
        PassedMonotone(shares, i + 1, j);
      } else if j < i {
        PassedMonotone(shares, j + 1, i);
      }
    }
  }

  lemma HeldOnce(shares: seq<nat>, i: nat, j: nat, t: nat)
    requires Holds(shares, j, t)
    ensures Holds(shares, i, t) <==> i == j
  {
    PassedMonotone(shares, j + 1, |shares|);
    TicketHasOneHolder(shares, t);
  }

  lemma {:induction false} FindHolder(shares: seq<nat>, t: nat, n: nat) returns (i: nat)
    requires n <= |shares| && t < Passed(shares, n)
    ensures Holds(shares, i, t)
  {
    if t < Passed(shares, n - 1) {
      i := FindHolder(shares, t, n - 1);
    } else {
      i := n - 1;
    }
  }

  /** A ticket number at or above the total is held by nobody. */
  lemma NoHolderAbove(shares: seq<nat>, i: nat, t: nat)
    requires t >= Total(shares)
    ensures !Holds(shares, i, t)
  {
    if i < |shares| {
      PassedMonotone(shares, i + 1, |shares|);
    }
  }

  /** With at most `MAX_TICKETS_PER_PROCESS` tickets a slot, the total fits the
      generator's 16-bit argument. */
  lemma {:induction false} CapFitsWord(shares: seq<nat>, n: nat)
    requires n <= |shares|
    requires forall i :: 0 <= i < |shares| ==> shares[i] <= MAX_TICKETS_PER_PROCESS
    ensures Passed(shares, n) <= n * MAX_TICKETS_PER_PROCESS
    ensures |shares| == NPROC ==> Passed(shares, n) < WORDS
  {
    if n != 0 {
      CapFitsWord(shares, n - 1);
    }
    assert |shares| == NPROC ==> n * MAX_TICKETS_PER_PROCESS <= NPROC * MAX_TICKETS_PER_PROCESS;
  }

  /** The `k`-th call of the generator from `state` draws a ticket of slot `i`. */
  ghost predicate WinsAt(shares: seq<nat>, state: nat, k: nat, i: nat)
    requires Total(shares) % WORDS != 0
  {
    Holds(shares, i, Draw(StateAt(state, k), Total(shares) % WORDS))
  }

  lemma TruncationShrinks(total: nat)
    ensures total % WORDS <= total
  {
  }

  /** The calls that pick slot `i`, among the next `n`. */
  ghost function WinsOf(shares: seq<nat>, state: nat, n: nat, i: nat): (ks: set<nat>)
    requires Total(shares) % WORDS != 0
  {
    set k: nat | k < n && WinsAt(shares, state, k, i)
  }

  /** The table after slot `p` has been put on a CPU. */
  function Ran(t: Table, p: nat): (r: Table)
    requires p < |t|
  {
    t[p := t[p].(state := RUNNING, ticks := t[p].ticks + 1)]
  }

  /** The per-CPU scheduler over the process table. The two ticket
      accumulators live across passes of its loop, so they are fields. */
  class Scheduler {
    const table: array<Proc>
    const generator: Generator
    var totalTickets: nat
    var ticketsPassed: nat
    var running: int  // the slot on this CPU, or -1

    /** What holds at the head of the scheduler's loop. */
    ghost predicate AtLoopHead()
      reads this, generator
    {
      table.Length == NPROC && generator.Valid() &&
      totalTickets == 0 && ticketsPassed == 0 && running == -1
    }

    constructor (procs: array<Proc>, rng: Generator)
      requires procs.Length == NPROC && rng.Valid()
      ensures AtLoopHead() && table == procs && generator == rng
    {
      table := procs;
      generator := rng;
      totalTickets, ticketsPassed, running := 0, 0, -1;
    }

    /** One pass of the loop up to the switch to the winner. The sum is an
        `int`, so it must not overflow; its low 16 bits are the generator's
        argument, on which the remainder traps when they are all zero. */
    method Dispatch() returns (winner: int, trap: bool)
      requires AtLoopHead()
      requires Total(Shares(table[..])) < 0x8000_0000
      modifies this, table, generator
      ensures trap <==> Traps(old(table[..]))
      ensures trap ==> winner == -1 && table[..] == old(table[..])
      ensures generator.Valid() && running == winner
      ensures Total(Shares(old(table[..]))) == 0 ==>
                winner == -1 && AtLoopHead() && table[..] == old(table[..]) &&
                generator.startState == old(generator.startState)
      ensures Total(Shares(old(table[..]))) > 0 && !trap ==>
                0 <= winner < NPROC && old(table[winner]).state == RUNNABLE &&
                WinsAt(Shares(old(table[..])), old(generator.startState), 0, winner) &&
                table[..] == Ran(old(table[..]), winner) &&
                generator.startState == NextState(old(generator.startState))
      // the ticket is what the register shows after as many steps as there are
      // tickets, counted in 16 bits, and the tickets are counted slot by slot
      ensures Total(Shares(old(table[..]))) > 0 && !trap ==>
                var shares := Shares(old(table[..]));
                var seed := if old(generator.startState) == 0 then 1 else old(generator.startState);
                exists w: nat ::
                  && Shows(w, seed, Total(shares) % WORDS)
                  && Passed(shares, winner) <= w % (Total(shares) % WORDS) < Passed(shares, winner + 1)
      ensures winner >= 0 ==>
                var was := old(table[winner]);
                table[..] == old(table[..])[winner := was.(state := RUNNING, ticks := was.ticks + 1)]
    {
      CountTickets();
      winner, trap := -1, false;
      if totalTickets > 0 {
        ghost var shares := Shares(table[..]);
        ghost var state := generator.startState;
        var drawn := generator.Generate(totalTickets % WORDS);
        if drawn.Trap? {
          return -1, true;
        }
        var ticketNo := drawn.n;
        assert ticketNo < Total(shares) by {
          TruncationShrinks(totalTickets);
        }
        winner := FindWinner(ticketNo);
        assert WinsAt(shares, state, 0, winner);
        SwitchTo(winner);
      }
    }

    /** The winner goes on this CPU and is charged one tick. */
    method SwitchTo(p: nat)
      requires table.Length == NPROC && p < NPROC
      modifies this`running, table
      ensures running == p
      ensures table[..] == Ran(old(table[..]), p)
    {
      running := p;
      table[p] := table[p].(state := RUNNING, ticks := table[p].ticks + 1);
    }

    /** The first scan of the table. */
    method CountTickets()
      requires AtLoopHead()
      modifies this`totalTickets
      ensures totalTickets == Total(Shares(table[..]))
    {
      ghost var shares := Shares(table[..]);
      var p := 0;
      while p < NPROC
        invariant 0 <= p <= NPROC
        invariant totalTickets == Passed(shares, p)
      {
        if table[p].state == RUNNABLE {
          totalTickets := totalTickets + table[p].tickets;
        }
        p := p + 1;
      }
    }

    /** The second scan: it stops inside the table on a RUNNABLE slot whenever
        the ticket number is below the total. */
    method FindWinner(ticketNo: nat) returns (winner: nat)
      requires table.Length == NPROC && ticketsPassed == 0
      modifies this`ticketsPassed
      ensures winner <= NPROC
      ensures ticketNo < Total(Shares(table[..])) ==>
                winner < NPROC && table[winner].state == RUNNABLE && Holds(Shares(table[..]), winner, ticketNo)
      ensures ticketNo >= Total(Shares(table[..])) ==> winner == NPROC
    {
      ghost var shares := Shares(table[..]);
      var p := 0;
      while p < NPROC
        invariant 0 <= p <= NPROC
        invariant ticketsPassed == Passed(shares, p) <= ticketNo
      {
        if table[p].state == RUNNABLE {
          ticketsPassed := ticketsPassed + table[p].tickets;
          if ticketsPassed > ticketNo {
            PassedMonotone(shares, p + 1, NPROC);
            return p;
          }
        }
        p := p + 1;
      }
      return p;
    }

    /** The rest of the pass, after the process has switched back. */
    method Undispatch()
      requires table.Length == NPROC && generator.Valid()
      modifies this
      ensures AtLoopHead()
    {
      running := -1;
      totalTickets := 0;
      ticketsPassed := 0;
    }

    /** One whole pass in which the winner only yields the CPU again. */
    method DispatchAndYield() returns (winner: nat, trap: bool)
      requires AtLoopHead()
      requires 0 < Total(Shares(table[..])) < 0x8000_0000
      modifies this, table, generator
      ensures trap <==> Traps(old(table[..]))
      ensures trap ==> table[..] == old(table[..])
      ensures !trap ==> AtLoopHead() && winner < NPROC
      ensures !trap ==> WinsAt(Shares(old(table[..])), old(generator.startState), 0, winner)
      ensures !trap ==> generator.startState == NextState(old(generator.startState))
      ensures !trap ==>
                table[..] == old(table[..])[winner := old(table[winner]).(ticks := old(table[winner]).ticks + 1)]
    {
      var p: int;
      p, trap := Dispatch();
      if trap {
        return 0, true;
      }
      winner := p;
      table[winner] := table[winner].(state := RUNNABLE);
      Undispatch();
    }

    /** `n` passes of the loop in which every process that gets the CPU only
        yields it again. The table is steady, so the first pass traps or none. */
    method Run(n: nat) returns (trap: bool)
      requires AtLoopHead()
      requires 0 < Total(Shares(table[..])) < 0x8000_0000
      modifies this, table, generator
      ensures trap <==> n > 0 && Traps(old(table[..]))
      ensures trap || n == 0 ==> table[..] == old(table[..])
      ensures !trap ==> AtLoopHead()
      ensures !trap ==> generator.startState == StateAt(old(generator.startState), n)
      ensures !trap && n > 0 ==> AllCredited(old(table[..]), table[..], old(generator.startState), n)
    {
      hide AllCredited, WinsAt, Passed, Ran, Draw;
      ghost var was := table[..];
      ghost var state := generator.startState;
      if !Traps(was) {
        NothingCredited(was, state);
      }
      var k := 0;
      while k < n
        invariant 0 <= k <= n
        invariant AtLoopHead()
        invariant generator.startState == StateAt(state, k)
        invariant k == 0 ==> table[..] == was
        invariant k > 0 ==> !Traps(was)
        invariant !Traps(was) ==> AllCredited(was, table[..], state, k)
        modifies this, table, generator
      {
        if !Traps(was) {
          StillShares(was, table[..], state, k);
        }
        ghost var before := table[..];
        var p, failed := DispatchAndYield();
        if failed {
          return true;
        }
        CreditOne(was, before, table[..], state, k, p);
        k := k + 1;
      }
      trap := false;
    }
  }

  /** A pass over the table divides by zero: the total is not zero, its low 16 bits
      are. */
  predicate Traps(t: Table)
  {
    Total(Shares(t)) > 0 && Total(Shares(t)) % WORDS == 0
  }

  /** The trap can be reached: the system call gives the only RUNNABLE process
      65536 tickets, and the next pass of the scheduler divides by zero. */
  method TicketsTrap() returns (r: int, trap: bool)
    ensures r == 0 && trap
  {
    var first := Proc(RUNNABLE, 1, -1, NoChan, false, true, true, 100, 0, Start, NoWork);
    var others := Proc(UNUSED, 0, -1, NoChan, false, false, false, 0, 0, Start, NoWork);
    var t := new Procs.Table([first] + seq(NPROC - 1, _ => others));
    r := t.AssignTickets(1, WORDS);
    assert FindPid([first] + seq(NPROC - 1, _ => others), 1, 0) == 0;
    var procs := new Proc[NPROC](i requires 0 <= i < NPROC => if i == 0 then first.(tickets := WORDS) else others);
    assert procs[..] == t.procs;
    OneShare(procs[..]);
    var generator := new Generator();
    var scheduler := new Scheduler(procs, generator);
    var _, trapped := scheduler.Dispatch();
    trap := trapped;
  }

  /** One RUNNABLE slot, the first, brings all tickets. */
  lemma OneShare(t: Table)
    requires |t| > 0 && t[0].state == RUNNABLE && forall i :: 0 < i < |t| ==> t[i].state != RUNNABLE
    ensures Total(Shares(t)) == t[0].tickets
  {
    NoneAfter(Shares(t), 1, |t|);
  }

  /** Slots without tickets add nothing. */
  lemma {:induction false} NoneAfter(shares: seq<nat>, k: nat, n: nat)
    requires k <= n <= |shares| && forall i :: k <= i < |shares| ==> shares[i] == 0
    ensures Passed(shares, n) == Passed(shares, k)
  {
    if k < n {
      NoneAfter(shares, k, n - 1);
    }
  }

  /** A slot of `was` with the ticks it won in the first `k` passes. */
  ghost function Credited(was: Table, state: nat, k: nat, i: nat): (p: Proc)
    requires i < |was| && Total(Shares(was)) % WORDS != 0
  {
    was[i].(ticks := was[i].ticks + |WinsOf(Shares(was), state, k, i)|)
  }

  ghost predicate AllCredited(was: Table, now: Table, state: nat, k: nat)
  {
    && |was| == |now| && Total(Shares(was)) % WORDS != 0
    && forall i :: 0 <= i < |was| ==> now[i] == Credited(was, state, k, i)
  }

  lemma NothingCredited(was: Table, state: nat)
    requires Total(Shares(was)) % WORDS != 0
    ensures AllCredited(was, was, state, 0)
  {
    forall i | 0 <= i < |was|
      ensures Credited(was, state, 0, i) == was[i]
    {
      assert WinsOf(Shares(was), state, 0, i) == {};
    }
  }

  lemma StillShares(was: Table, now: Table, state: nat, k: nat)
    requires AllCredited(was, now, state, k)
    ensures Shares(now) == Shares(was)
  {
  }

  lemma CreditOne(was: Table, before: Table, now: Table, state: nat, k: nat, p: nat)
    requires p < |was| && AllCredited(was, before, state, k)
    requires now == before[p := before[p].(ticks := before[p].ticks + 1)]
    requires WinsAt(Shares(was), StateAt(state, k), 0, p)
    ensures AllCredited(was, now, state, k + 1)
  {
    forall i | 0 <= i < |was|
      ensures now[i] == Credited(was, state, k + 1, i)
    {
      WinsStep(Shares(was), state, k, p, i);
    }
  }

  /** One more call adds one win, to the slot that holds the drawn ticket. */
  lemma WinsStep(shares: seq<nat>, state: nat, k: nat, p: nat, i: nat)
    requires Total(shares) % WORDS != 0
    requires WinsAt(shares, StateAt(state, k), 0, p)
    ensures |WinsOf(shares, state, k + 1, i)| == |WinsOf(shares, state, k, i)| + if i == p then 1 else 0
  {
    HeldOnce(shares, i, p, Draw(StateAt(state, k), Total(shares) % WORDS));
    WinsGrow(shares, state, k, i);
  }

  lemma WinsGrow(shares: seq<nat>, state: nat, k: nat, i: nat)
    requires Total(shares) % WORDS != 0
    ensures WinsOf(shares, state, k + 1, i) ==
              WinsOf(shares, state, k, i) + if WinsAt(shares, state, k, i) then {k} else {}
  {
  }
}
