/**
 The process table as a protocol: the steps that CPUs take, one at a time in any
 order. A critical section of `ptable.lock` that one CPU enters and leaves again
 is one step. A section that crosses a switch is several: the lock is then
 handed from a process to the scheduler of its CPU, and from the scheduler to
 the next process.
 */
module ProcSteps {
  import opened Params
  import opened Procs

  const INIT: nat := 0

  /** What a CPU is doing. `Idle` and `Picking` are the scheduler without and
      with the lock. `Resuming` is a process that was just switched to and still
      holds the lock. `Leaving` is a process that holds the lock, has changed
      its state and is about to call `swtch`. `Left` is the scheduler again,
      before it clears `c->proc`. The first three are on the process's stack. */
  datatype Cpu = Idle | Picking | Resuming(p: nat) | Running(p: nat) | Leaving(p: nat) | Left(p: nat)

  datatype Lock = Free | Held(cpu: nat)

  datatype State = State(
    procs: seq<Proc>, cpus: seq<Cpu>, lock: Lock, nextpid: nat, decisions: nat, reapedTicks: nat)

  /** `c->proc` is set. */
  predicate HasProc(c: Cpu)
  {
    c.Resuming? || c.Running? || c.Leaving? || c.Left?
  }

  predicate OnStack(c: Cpu)
  {
    c.Resuming? || c.Running? || c.Leaving?
  }

  predicate HoldsLock(c: Cpu)
  {
    c.Picking? || c.Resuming? || c.Leaving? || c.Left?
  }

  datatype Event =
    | Acquire(c: nat) | Nothing(c: nat) | Dispatch(c: nat, slot: nat)
    | Continue(c: nat) | Switch(c: nat) | Release(c: nat)
    | Yield(c: nat) | Sleep(c: nat, a: nat) | Exit(c: nat) | Wait(c: nat)
    | ForkAlloc(c: nat) | ForkStack(c: nat, ok: bool) | ForkCopy(c: nat, ok: bool)
    | ForkAdopt(c: nat) | ForkPublish(c: nat)
    | Fault(c: nat) | Wakeup(a: nat) | Kill(pid: int) | Assign(pid: int, tickets: int)

  // ---- Steps ----

  predicate RunsFreely(s: State, c: nat)
  {
    c < |s.cpus| && s.cpus[c].Running? && s.cpus[c].p < |s.procs|
  }

  predicate InFork(s: State, c: nat, stage: Stage)
  {
    RunsFreely(s, c) &&
    var w := s.procs[s.cpus[c].p].work;
    w.Forking? && w.stage == stage && w.child < |s.procs|
  }

  predicate Enabled(s: State, e: Event)
  {
    match e
    case Acquire(c) => c < |s.cpus| && s.cpus[c].Idle? && s.lock.Free?
    case Nothing(c) => c < |s.cpus| && s.cpus[c].Picking?
    case Dispatch(c, i) => c < |s.cpus| && s.cpus[c].Picking? && i < |s.procs| && s.procs[i].state == RUNNABLE
    case Continue(c) => c < |s.cpus| && s.cpus[c].Resuming? && s.cpus[c].p < |s.procs|
    case Switch(c) => c < |s.cpus| && s.cpus[c].Leaving?
    case Release(c) => c < |s.cpus| && s.cpus[c].Left?
    // A timer interrupt can come in the middle of `fork`.
    case Yield(c) => RunsFreely(s, c) && s.lock.Free?
    case Sleep(c, a) => RunsFreely(s, c) && s.lock.Free? && s.procs[s.cpus[c].p].work.NoWork?
    case Exit(c) => RunsFreely(s, c) && s.lock.Free? && s.procs[s.cpus[c].p].work.NoWork? && s.cpus[c].p != INIT
    case Wait(c) => RunsFreely(s, c) && s.lock.Free? && s.procs[s.cpus[c].p].work.NoWork?
    case ForkAlloc(c) => RunsFreely(s, c) && s.lock.Free? && s.procs[s.cpus[c].p].work.NoWork?
    // Between its two critical sections `fork` works on the new slot unlocked.
    case ForkStack(c, ok) => InFork(s, c, Allocated)
    case ForkCopy(c, ok) => InFork(s, c, Stacked)
    case ForkAdopt(c) => InFork(s, c, Copied)
    case ForkPublish(c) => InFork(s, c, Adopted) && s.lock.Free?
    // A fault in user mode: the process marks itself killed, without the lock.
    case Fault(c) => RunsFreely(s, c)
    // From a process or from an interrupt handler.
    case Wakeup(a) => s.lock.Free?
    case Kill(pid) => s.lock.Free?
    case Assign(pid, tickets) => s.lock.Free?
  }

  function SetProc(s: State, i: nat, p: Proc): (t: State)
    requires i < |s.procs|
  {
    s.(procs := s.procs[i := p])
  }

  /** The process on CPU `c` takes the lock, gets state `p` and calls `sched`. */
  function Leave(s: State, c: nat, p: Proc): (t: State)
    requires c < |s.cpus| && HasProc(s.cpus[c]) && s.cpus[c].p < |s.procs|
  {
    SetProc(s, s.cpus[c].p, p).(cpus := s.cpus[c := Leaving(s.cpus[c].p)], lock := Held(c))
  }

  /** One pass of `wait` by process `me` on CPU `c`, with the lock. */
  function WaitStep(s: State, c: nat, me: nat): (t: State)
    requires c < |s.cpus| && me < |s.procs| && HasProc(s.cpus[c]) && s.cpus[c].p == me
  {
    match WaitPass(s.procs, me)
    case Found(z) =>
      SetProc(s, z, Reaped(s.procs[z]))
        .(cpus := s.cpus[c := Running(me)], lock := Free, reapedTicks := s.reapedTicks + s.procs[z].ticks)
    case NoChildren => s.(cpus := s.cpus[c := Running(me)], lock := Free)
    case GoToSleep => Leave(s, c, s.procs[me].(chan := ProcChan(me), state := SLEEPING, resume := FromWait))
  }

  function Step(s: State, e: Event): (t: State)
    requires Enabled(s, e)
  {
    match e
    case Acquire(c) => s.(cpus := s.cpus[c := Picking], lock := Held(c))
    case Nothing(c) => s.(cpus := s.cpus[c := Idle], lock := Free)
    case Dispatch(c, i) =>
      SetProc(s, i, s.procs[i].(state := RUNNING, ticks := s.procs[i].ticks + 1))
        .(cpus := s.cpus[c := Resuming(i)], decisions := s.decisions + 1)
    case Continue(c) =>
      var i := s.cpus[c].p;
      var p := s.procs[i];
      var awake := if p.resume == FromSleep || p.resume == FromWait then p.(chan := NoChan, resume := Start)
                   else p.(resume := Start);
      if p.resume == FromWait then WaitStep(SetProc(s, i, awake), c, i)
      else
        SetProc(s, i, awake)
          .(cpus := s.cpus[c := Running(i)], lock := Free)
    case Switch(c) => s.(cpus := s.cpus[c := Left(s.cpus[c].p)])
    case Release(c) => s.(cpus := s.cpus[c := Idle], lock := Free)
    case Yield(c) => Leave(s, c, s.procs[s.cpus[c].p].(state := RUNNABLE, resume := FromYield))
    case Sleep(c, a) => Leave(s, c, s.procs[s.cpus[c].p].(chan := Address(a), state := SLEEPING, resume := FromSleep))
    case Exit(c) =>
      s.(procs := ExitTable(s.procs, s.cpus[c].p, INIT), cpus := s.cpus[c := Leaving(s.cpus[c].p)], lock := Held(c))
    case Wait(c) => WaitStep(s, c, s.cpus[c].p)
    case ForkAlloc(c) =>
      var i, me := FindUnused(s.procs, 0), s.cpus[c].p;
      if i == |s.procs| then s
      else
        var ps := s.procs[i := Embryo(s.procs[i], s.nextpid)];
        s.(procs := ps[me := ps[me].(work := Forking(i, Allocated))], nextpid := s.nextpid + 1)
    case ForkStack(c, ok) => ForkNext(s, c, s.procs[Child(s, c)].(kstack := true), Stacked, ok)
    case ForkCopy(c, ok) => ForkNext(s, c, s.procs[Child(s, c)].(pgdir := true), Copied, ok)
    case ForkAdopt(c) => ForkNext(s, c, s.procs[Child(s, c)].(parent := s.cpus[c].p), Adopted, true)
    case ForkPublish(c) =>
      var i, me := Child(s, c), s.cpus[c].p;
      var ps := s.procs[i := s.procs[i].(state := RUNNABLE, resume := Start)];
      s.(procs := ps[me := ps[me].(work := NoWork)])
    case Fault(c) => SetProc(s, s.cpus[c].p, s.procs[s.cpus[c].p].(killed := true))
    case Wakeup(a) => s.(procs := WakeAll(s.procs, Address(a)))
    case Kill(pid) =>
      var i := FindPid(s.procs, pid, 0);
      if i == |s.procs| then s else SetProc(s, i, Killed(s.procs[i]))
    case Assign(pid, tickets) => s.(procs := Assigned(s.procs, pid, tickets))
  }

  function Child(s: State, c: nat): (i: nat)
    requires RunsFreely(s, c) && s.procs[s.cpus[c].p].work.Forking?
  {
    s.procs[s.cpus[c].p].work.child
  }

  /** `fork` goes on with the new slot, or gives it up: the stack is freed and
      the slot is UNUSED again, with its pid still in it. */
  function ForkNext(s: State, c: nat, child: Proc, stage: Stage, ok: bool): (t: State)
    requires RunsFreely(s, c) && s.procs[s.cpus[c].p].work.Forking? && Child(s, c) < |s.procs|
  {
    var i, me := Child(s, c), s.cpus[c].p;
    var ps := s.procs[i := if ok then child else s.procs[i].(kstack := false, state := UNUSED)];
    s.(procs := ps[me := ps[me].(work := if ok then Forking(i, stage) else NoWork)])
  }

  /** After `userinit`: process 1 is RUNNABLE and every other slot is unused. */
  const unused: Proc := Proc(UNUSED, 0, -1, NoChan, false, false, false, 0, 0, Start, NoWork)

  function Boot(ncpu: nat): (s: State)
  {
    var first := Proc(RUNNABLE, 1, -1, NoChan, false, true, true, 100, 0, Start, NoWork);
    State([first] + seq(NPROC - 1, _ => unused), seq(ncpu, _ => Idle), Free, 2, 0, 0)
  }

  // ---- Runs ----

  datatype Run = Start0(ncpu: nat) | Then(before: Run, e: Event)

  ghost predicate ValidRun(r: Run)
    decreases r, 0
  {
    match r
    case Start0(_) => true
    case Then(before, e) => ValidRun(before) && Enabled(Final(before), e)
  }

  ghost function Final(r: Run): (s: State)
    requires ValidRun(r)
    decreases r, 1
  {
    match r
    case Start0(n) => Boot(n)
    case Then(before, e) => Step(Final(before), e)
  }
}
