/**
 The process table: its entries, and the loops over it that run inside one
 critical section of `ptable.lock`.
 */
module Procs {

  datatype ProcState = UNUSED | EMBRYO | SLEEPING | RUNNABLE | RUNNING | ZOMBIE

  /** What a process sleeps on: nothing, a process (for `wait`), or some other
      address. */
  datatype Chan = NoChan | ProcChan(slot: int) | Address(a: nat)

  /** Where a thread that was switched out goes on: at `forkret`, or behind the
      call of `sched` in `yield`, in `sleep`, or in `sleep` called by `wait`.
      While it runs, the place is `Start`. */
  datatype Resume = Start | FromYield | FromSleep | FromWait

  /** How far `fork` has got with the new process. */
  datatype Stage = Allocated | Stacked | Copied | Adopted

  datatype Work = NoWork | Forking(child: nat, stage: Stage)

  /** `parent` is a slot, or -1. `kstack` and `pgdir` say whether the process
      has a kernel stack and a page table. `resume` and `work` are the thread's
      own place in the kernel. */
  datatype Proc = Proc(
    state: ProcState, pid: nat, parent: int, chan: Chan, killed: bool,
    kstack: bool, pgdir: bool, tickets: nat, ticks: nat, resume: Resume, work: Work)

  predicate Alive(p: Proc)
  {
    p.state == SLEEPING || p.state == RUNNABLE || p.state == RUNNING
  }

  predicate HasThread(p: Proc)
  {
    p.state != UNUSED && p.state != EMBRYO
  }

  // ---- What the loops compute ----

  function Wake(p: Proc, chan: Chan): (q: Proc)
  {
    if p.state == SLEEPING && p.chan == chan then p.(state := RUNNABLE) else p
  }

  /** `wakeup1`. */
  function WakeAll(ps: seq<Proc>, chan: Chan): (qs: seq<Proc>)
    ensures |qs| == |ps| && forall i :: 0 <= i < |ps| ==> qs[i] == Wake(ps[i], chan)
  {
    seq(|ps|, i requires 0 <= i < |ps| => Wake(ps[i], chan))
  }

  /** The slot of the first process with the pid, or the size of the table. */
  function FindPid(ps: seq<Proc>, pid: int, k: nat): (i: nat)
    requires k <= |ps|
    ensures k <= i <= |ps| && (i < |ps| ==> ps[i].pid == pid)
    ensures forall j :: k <= j < i ==> ps[j].pid != pid
    decreases |ps| - k
  {
    if k == |ps| || ps[k].pid == pid then k else FindPid(ps, pid, k + 1)
  }

  function FindUnused(ps: seq<Proc>, k: nat): (i: nat)
    requires k <= |ps|
    ensures k <= i <= |ps| && (i < |ps| ==> ps[i].state == UNUSED)
    ensures forall j :: k <= j < i ==> ps[j].state != UNUSED
    decreases |ps| - k
  {
    if k == |ps| || ps[k].state == UNUSED then k else FindUnused(ps, k + 1)
  }

  predicate IsZombieOf(p: Proc, parent: nat)
  {
    p.parent == parent && p.state == ZOMBIE
  }

  predicate HasZombie(ps: seq<Proc>, parent: nat)
  {
    exists i :: 0 <= i < |ps| && IsZombieOf(ps[i], parent)
  }

  predicate HasKid(ps: seq<Proc>, parent: nat)
  {
    exists i :: 0 <= i < |ps| && ps[i].parent == parent
  }

  function FindZombie(ps: seq<Proc>, parent: nat, k: nat): (i: nat)
    requires k <= |ps|
    ensures k <= i <= |ps| && (i < |ps| ==> IsZombieOf(ps[i], parent))
    ensures forall j :: k <= j < i ==> !IsZombieOf(ps[j], parent)
    decreases |ps| - k
  {
    if k == |ps| || IsZombieOf(ps[k], parent) then k else FindZombie(ps, parent, k + 1)
  }

  function Adopt(p: Proc, me: nat, init: nat): (q: Proc)
  {
    if p.parent == me then p.(parent := init) else p
  }

  function AdoptAll(ps: seq<Proc>, me: nat, init: nat): (qs: seq<Proc>)
    ensures |qs| == |ps| && forall i :: 0 <= i < |ps| ==> qs[i] == Adopt(ps[i], me, init)
  {
    seq(|ps|, i requires 0 <= i < |ps| => Adopt(ps[i], me, init))
  }

  /** The critical section of `exit`: wake the parent, give the children to
      init and wake init if one of them is a zombie, become a zombie. */
  function ExitTable(ps: seq<Proc>, me: nat, init: nat): (qs: seq<Proc>)
    requires me < |ps|
    ensures |qs| == |ps|
  {
    var adopted := AdoptAll(WakeAll(ps, ProcChan(ps[me].parent)), me, init);
    var woken := if HasZombie(ps, me) then WakeAll(adopted, ProcChan(init)) else adopted;
    woken[me := woken[me].(state := ZOMBIE)]
  }

  /** What `exit` does to entry `i`: a sleeper is woken that waits as the parent, or
      as init when a zombie comes to it; children go to init; `me` is a zombie. */
  ghost predicate ExitedEntry(ps: seq<Proc>, q: Proc, i: nat, me: nat, init: nat)
    requires i < |ps| && me < |ps|
  {
    var woken := ps[i].state == SLEEPING &&
                 (ps[i].chan == ProcChan(ps[me].parent) ||
                  (ps[i].chan == ProcChan(init) &&
                   exists j :: 0 <= j < |ps| && ps[j].parent == me && ps[j].state == ZOMBIE));
    q == ps[i].(state := if i == me then ZOMBIE else if woken then RUNNABLE else ps[i].state,
                parent := if ps[i].parent == me then init else ps[i].parent)
  }

  /** A slot that `allocproc` has taken. It does not clear `killed`. */
  function Embryo(p: Proc, pid: nat): (q: Proc)
  {
    p.(state := EMBRYO, pid := pid, tickets := 100, ticks := 0)
  }

  function Killed(p: Proc): (q: Proc)
  {
    p.(killed := true, state := if p.state == SLEEPING then RUNNABLE else p.state)
  }

  function Assigned(ps: seq<Proc>, pid: int, tickets: int): (qs: seq<Proc>)
    ensures |qs| == |ps|
  {
    if pid < 1 || tickets < 1 then ps
    else
      var i := FindPid(ps, pid, 0);
      if i < |ps| then ps[i := ps[i].(tickets := tickets)] else ps
  }

  /** What `wait` leaves of a reaped child. */
  function Reaped(p: Proc): (q: Proc)
  {
    p.(state := UNUSED, pid := 0, parent := -1, killed := false, kstack := false, pgdir := false,
       tickets := 0, ticks := 0, work := NoWork)
  }

  /** The result of a pass of `wait` over the table. */
  datatype WaitResult = Found(slot: nat) | NoChildren | GoToSleep

  function WaitPass(ps: seq<Proc>, me: nat): (r: WaitResult)
    requires me < |ps|
  {
    if FindZombie(ps, me, 0) < |ps| then Found(FindZombie(ps, me, 0))
    else if !HasKid(ps, me) || ps[me].killed then NoChildren
    else GoToSleep
  }

  // ---- The loops ----

  class Table {
    var procs: seq<Proc>

    constructor (ps: seq<Proc>)
      ensures procs == ps
    {
      procs := ps;
    }

    method Wakeup1(chan: Chan)
      modifies this
      ensures procs == WakeAll(old(procs), chan)
      ensures |procs| == |old(procs)|
      ensures forall i :: 0 <= i < |procs| && old(procs)[i].state == SLEEPING && old(procs)[i].chan == chan ==>
                procs[i] == old(procs)[i].(state := RUNNABLE)
      ensures forall i :: 0 <= i < |procs| && !(old(procs)[i].state == SLEEPING && old(procs)[i].chan == chan) ==>
                procs[i] == old(procs)[i]
    {
      var i := 0;
      while i < |procs|
        invariant 0 <= i <= |procs| == |old(procs)|
        invariant forall j :: 0 <= j < i ==> procs[j] == Wake(old(procs[j]), chan)
        invariant forall j :: i <= j < |procs| ==> procs[j] == old(procs[j])
      {
        if procs[i].state == SLEEPING && procs[i].chan == chan {
          procs := procs[i := procs[i].(state := RUNNABLE)];
        }
        i := i + 1;
      }
    }

    /** The loop of `kill`: the first slot with the pid, whatever its state. */
    method Kill(pid: int) returns (ok: bool)
      modifies this
      ensures var i := FindPid(old(procs), pid, 0);
              && ok == (i < |old(procs)|)
              && procs == if ok then old(procs)[i := Killed(old(procs)[i])] else old(procs)
      ensures ok <==> exists i :: 0 <= i < |procs| && old(procs)[i].pid == pid
      ensures |procs| == |old(procs)|
      ensures forall i :: 0 <= i < |procs| ==> var was := old(procs)[i];
                procs[i] == if was.pid == pid && (forall j :: 0 <= j < i ==> old(procs)[j].pid != pid)
                            then was.(killed := true, state := if was.state == SLEEPING then RUNNABLE else was.state)
                            else was
    {
      var i := 0;
      while i < |procs|
        invariant 0 <= i <= |procs| && procs == old(procs) && FindPid(procs, pid, 0) == FindPid(procs, pid, i)
      {
        if procs[i].pid == pid {
          procs := procs[i := procs[i].(killed := true)];
          if procs[i].state == SLEEPING {
            procs := procs[i := procs[i].(state := RUNNABLE)];
          }
          return true;
        }
        i := i + 1;
      }
      ok := false;
    }

    /** The loop of `exit` that hands the children to init. A zombie among them
        makes it wake init, each time it meets one. */
    method AdoptChildren(me: nat, init: nat)
      requires me != init
      modifies this
      ensures procs == var adopted := AdoptAll(old(procs), me, init);
                       if HasZombie(old(procs), me) then WakeAll(adopted, ProcChan(init)) else adopted
    {
      var i := 0;
      ghost var zombie := false;
      while i < |procs|
        invariant 0 <= i <= |procs| == |old(procs)|
        invariant zombie <==> exists j :: 0 <= j < i && IsZombieOf(old(procs)[j], me)
        invariant forall j :: 0 <= j < |procs| ==>
          procs[j] == if zombie then Wake(AdoptedBefore(old(procs), i, j, me, init), ProcChan(init))
                      else AdoptedBefore(old(procs), i, j, me, init)
      {
        if procs[i].parent == me {
          procs := procs[i := procs[i].(parent := init)];
          if procs[i].state == ZOMBIE {
            Wakeup1(ProcChan(init));
            zombie := true;
          }
        }
        i := i + 1;
      }
    }

    /** The critical section of `exit`, up to the call of `sched`. */
    method Exit(me: nat, init: nat)
      requires me < |procs| && me != init
      modifies this
      ensures procs == ExitTable(old(procs), me, init)
      ensures |procs| == |old(procs)|
      ensures forall i :: 0 <= i < |procs| ==> ExitedEntry(old(procs), procs[i], i, me, init)
    {
      Wakeup1(ProcChan(procs[me].parent));
      ghost var woken := procs;
      assert forall i :: 0 <= i < |procs| ==> IsZombieOf(procs[i], me) == IsZombieOf(old(procs)[i], me);
      assert HasZombie(woken, me) == HasZombie(old(procs), me);
      AdoptChildren(me, init);
      procs := procs[me := procs[me].(state := ZOMBIE)];
    }

    /** The critical section of `allocproc`. */
    method Alloc(pid: nat) returns (i: nat)
      modifies this
      ensures i == FindUnused(old(procs), 0)
      ensures procs == if i < |old(procs)| then old(procs)[i := Embryo(old(procs)[i], pid)] else old(procs)
      ensures i <= |procs| == |old(procs)| && forall j :: 0 <= j < i ==> old(procs)[j].state != UNUSED
      ensures i < |procs| ==>
        && old(procs)[i].state == UNUSED
        && procs == old(procs)[i := old(procs)[i].(state := EMBRYO, pid := pid, tickets := 100, ticks := 0)]
      ensures i == |procs| ==> procs == old(procs)
    {
      i := 0;
      while i < |procs|
        invariant 0 <= i <= |procs| && procs == old(procs) && FindUnused(procs, 0) == FindUnused(procs, i)
      {
        if procs[i].state == UNUSED {
          procs := procs[i := procs[i].(state := EMBRYO, pid := pid, tickets := 100, ticks := 0)];
          return;
        }
        i := i + 1;
      }
    }

    /** `sys_assign_tickets`, with arguments that have been fetched. */
    method AssignTickets(pid: int, tickets: int) returns (r: int)
      modifies this
      ensures procs == Assigned(old(procs), pid, tickets)
      ensures r == if pid < 1 || tickets < 1 then -1 else if FindPid(old(procs), pid, 0) < |procs| then 0 else -2
      ensures r == 0 <==> pid >= 1 && tickets >= 1 && exists i :: 0 <= i < |procs| && old(procs)[i].pid == pid
      ensures |procs| == |old(procs)|
      ensures forall i :: 0 <= i < |procs| ==> var was := old(procs)[i];
                procs[i] == if r == 0 && was.pid == pid && (forall j :: 0 <= j < i ==> old(procs)[j].pid != pid)
                            then was.(tickets := tickets) else was
    {
      if pid < 1 || tickets < 1 {
        return -1;
      }
      var i := 0;
      while i < |procs|
        invariant 0 <= i <= |procs| && procs == old(procs) && FindPid(procs, pid, 0) == FindPid(procs, pid, i)
      {
        if procs[i].pid == pid {
          procs := procs[i := procs[i].(tickets := tickets)];
          return 0;
        }
        i := i + 1;
      }
      r := -2;
    }

    /** The loop of `wait`. */
    method Scan(me: nat) returns (r: WaitResult)
      requires me < |procs|
      ensures r == WaitPass(procs, me)
      ensures r.Found? <==> exists i :: 0 <= i < |procs| && procs[i].parent == me && procs[i].state == ZOMBIE
      ensures r.Found? ==>
        && r.slot < |procs| && procs[r.slot].parent == me && procs[r.slot].state == ZOMBIE
        && forall j :: 0 <= j < r.slot ==> !(procs[j].parent == me && procs[j].state == ZOMBIE)
      ensures r.NoChildren? <==>
        && (forall i :: 0 <= i < |procs| && procs[i].parent == me ==> procs[i].state != ZOMBIE)
        && ((forall i :: 0 <= i < |procs| ==> procs[i].parent != me) || procs[me].killed)
      ensures r.GoToSleep? <==>
        && (forall i :: 0 <= i < |procs| && procs[i].parent == me ==> procs[i].state != ZOMBIE)
        && (exists i :: 0 <= i < |procs| && procs[i].parent == me) && !procs[me].killed
    {
      var havekids, i := false, 0;
      while i < |procs|
        invariant 0 <= i <= |procs| && FindZombie(procs, me, 0) == FindZombie(procs, me, i)
        invariant havekids <==> exists j :: 0 <= j < i && procs[j].parent == me
      {
        if procs[i].parent == me {
          havekids := true;
          if procs[i].state == ZOMBIE {
            return Found(i);
          }
        }
        i := i + 1;
      }
      return if !havekids || procs[me].killed then NoChildren else GoToSleep;
    }
  }

  /** Entry `j` once the loop of `exit` has passed the first `i` entries. */
  ghost function AdoptedBefore(ps: seq<Proc>, i: nat, j: nat, me: nat, init: nat): (p: Proc)
    requires j < |ps|
  {
    if j < i then Adopt(ps[j], me, init) else ps[j]
  }
}
