/**
 The state diagram of a process, in terms of who does what to whom, and who is
 asleep after a run.
 */
module ProcHistory {
  import opened Params
  import opened Procs
  import opened ProcSteps
  import opened ProcInv

  // ---- What moves a process ----

  /** Process `i` itself takes the step. */
  ghost predicate By(s: State, e: Event, i: nat)
  {
    && (e.Yield? || e.Sleep? || e.Exit? || e.Wait? || e.Continue?)
    && e.c < |s.cpus| && HasProc(s.cpus[e.c]) && s.cpus[e.c].p == i < |s.procs|
  }

  /** A pass of `wait` by process `i`, at the call or after it was woken. */
  ghost predicate Pass(s: State, e: Event, i: nat)
  {
    By(s, e, i) && (e.Wait? || (e.Continue? && s.procs[i].resume == FromWait))
  }

  /** Process `i` has children, and none of them is a zombie. */
  ghost predicate LivingKids(ps: seq<Proc>, i: nat)
  {
    && (exists k :: 0 <= k < |ps| && ps[k].parent == i)
    && (forall k :: 0 <= k < |ps| && ps[k].parent == i ==> ps[k].state != ZOMBIE)
  }

  /** Slot `z` is the lowest zombie child of process `i`. */
  ghost predicate FirstZombie(ps: seq<Proc>, i: nat, z: nat)
  {
    && z < |ps| && ps[z].parent == i && ps[z].state == ZOMBIE
    && (forall k :: 0 <= k < z ==> !(ps[k].parent == i && ps[k].state == ZOMBIE))
  }

  ghost predicate FallsAsleep(s: State, e: Event, i: nat)
  {
    (By(s, e, i) && e.Sleep?) || (Pass(s, e, i) && LivingKids(s.procs, i) && !s.procs[i].killed)
  }

  /** What process `i` then sleeps on. */
  function SleepsOn(e: Event, i: nat): (chan: Chan)
  {
    if e.Sleep? then Address(e.a) else ProcChan(i)
  }

  /** A sleeper is woken by a `wakeup` of its address, by a `kill` with its pid and,
      in `wait`, by the exit of a child; init also by one that leaves it a zombie. */
  ghost predicate WakesUp(s: State, e: Event, i: nat)
  {
    && i < |s.procs| && s.procs[i].state == SLEEPING
    && match e
       case Wakeup(a) => s.procs[i].chan == Address(a)
       case Kill(pid) => s.procs[i].pid == pid
       case Exit(c) =>
         && c < |s.cpus| && s.cpus[c].Running? && s.cpus[c].p < |s.procs| && s.procs[i].chan == ProcChan(i)
         && var me := s.cpus[c].p;
            s.procs[me].parent == i ||
            (i == INIT && exists k :: 0 <= k < |s.procs| && s.procs[k].parent == me && s.procs[k].state == ZOMBIE)
       case _ => false
  }

  ghost predicate IsReaped(s: State, e: Event, i: nat)
  {
    (e.Wait? || e.Continue?) && e.c < |s.cpus| && HasProc(s.cpus[e.c]) &&
    Pass(s, e, s.cpus[e.c].p) && FirstZombie(s.procs, s.cpus[e.c].p, i)
  }

  /** `fork` by the process on CPU `c` works on slot `i`. */
  ghost predicate ForksInto(s: State, c: nat, i: nat)
  {
    RunsFreely(s, c) && s.procs[s.cpus[c].p].work.Forking? && s.procs[s.cpus[c].p].work.child == i
  }

  ghost predicate GivenUp(s: State, e: Event, i: nat)
  {
    (e.ForkStack? || e.ForkCopy?) && !e.ok && ForksInto(s, e.c, i)
  }

  ghost predicate TakenUp(s: State, e: Event, i: nat)
  {
    e.ForkAlloc? && i < |s.procs| && s.procs[i].state == UNUSED && forall k :: 0 <= k < i ==> s.procs[k].state != UNUSED
  }

  ghost predicate Published(s: State, e: Event, i: nat)
  {
    e.ForkPublish? && ForksInto(s, e.c, i)
  }

  ghost predicate Leaves(s: State, e: Event, i: nat)
  {
    By(s, e, i) && (e.Yield? || e.Sleep? || e.Exit? || FallsAsleep(s, e, i))
  }

  /** When a slot is in each of the six states after a step, what a sleeper sleeps
      on, and what is left in a slot that has been reaped. */
  ghost predicate Diagram(s: State, e: Event, i: nat, q: Proc)
    requires i < |s.procs|
  {
    var p := s.procs[i];
    && (q.state == SLEEPING <==> FallsAsleep(s, e, i) || (p.state == SLEEPING && !WakesUp(s, e, i)))
    && (q.state == RUNNABLE <==>
          || (By(s, e, i) && e.Yield?) || WakesUp(s, e, i) || Published(s, e, i)
          || (p.state == RUNNABLE && !(e.Dispatch? && e.slot == i)))
    && (q.state == RUNNING <==> (e.Dispatch? && e.slot == i) || (p.state == RUNNING && !Leaves(s, e, i)))
    && (q.state == ZOMBIE <==> (By(s, e, i) && e.Exit?) || (p.state == ZOMBIE && !IsReaped(s, e, i)))
    && (q.state == UNUSED <==> IsReaped(s, e, i) || GivenUp(s, e, i) || (p.state == UNUSED && !TakenUp(s, e, i)))
    && (q.state == EMBRYO <==>
          TakenUp(s, e, i) || (p.state == EMBRYO && !GivenUp(s, e, i) && !Published(s, e, i)))
    && (FallsAsleep(s, e, i) ==> q.chan == SleepsOn(e, i))
    && (p.state == SLEEPING && q.state == SLEEPING ==> q.chan == p.chan)
    && (By(s, e, i) && e.Continue? && (p.resume == FromSleep || p.resume == FromWait) && q.state == RUNNING ==>
          q.chan == NoChan)
    && (IsReaped(s, e, i) ==> q.pid == 0 && q.parent == -1 && !q.killed && !q.kstack && !q.pgdir && q.tickets == 0)
  }

  ghost predicate FirstWithPid(ps: seq<Proc>, pid: int, i: nat)
  {
    i < |ps| && ps[i].pid == pid && forall k :: 0 <= k < i ==> ps[k].pid != pid
  }

  /** The process on CPU `c` of the event. */
  ghost function Actor(s: State, e: Event): (i: int)
  {
    if (e.Exit? || e.ForkAdopt? || e.Fault?) && e.c < |s.cpus| && HasProc(s.cpus[e.c]) then s.cpus[e.c].p else -2
  }

  /** What a step leaves of the pid, the parent, the mark, the tickets and the ticks
      of a slot. */
  ghost predicate Carries(s: State, e: Event, i: nat, q: Proc)
    requires i < |s.procs|
  {
    var p := s.procs[i];
    && q.pid == (if IsReaped(s, e, i) then 0 else if TakenUp(s, e, i) then s.nextpid else p.pid)
    && q.parent == (if IsReaped(s, e, i) then -1
                    else if e.ForkAdopt? && ForksInto(s, e.c, i) then Actor(s, e)
                    else if e.Exit? && p.parent == Actor(s, e) then INIT
                    else p.parent)
    && q.killed == (!IsReaped(s, e, i) &&
                    (p.killed || (e.Kill? && FirstWithPid(s.procs, e.pid, i)) || (e.Fault? && i == Actor(s, e))))
    && q.tickets == (if IsReaped(s, e, i) then 0
                     else if TakenUp(s, e, i) then 100
                     else if e.Assign? && e.pid >= 1 && e.tickets >= 1 && FirstWithPid(s.procs, e.pid, i) then e.tickets
                     else p.tickets)
    && q.ticks == (if IsReaped(s, e, i) || TakenUp(s, e, i) then 0
                   else if e.Dispatch? && e.slot == i then p.ticks + 1
                   else p.ticks)
  }

  /** Both. */
  ghost predicate Moves(s: State, e: Event, i: nat, q: Proc)
    requires i < |s.procs|
  {
    Diagram(s, e, i, q) && Carries(s, e, i, q)
  }

  // ---- Event by event ----

  /** The result of a pass. */
  lemma PassResult(ps: seq<Proc>, me: nat)
    requires me < |ps|
    ensures WaitPass(ps, me).Found? <==> exists z: nat :: FirstZombie(ps, me, z)
    ensures WaitPass(ps, me).Found? ==> FirstZombie(ps, me, WaitPass(ps, me).slot)
    ensures WaitPass(ps, me).GoToSleep? <==> LivingKids(ps, me) && !ps[me].killed
  {
    var z := FindZombie(ps, me, 0);
    if z < |ps| {
      assert FirstZombie(ps, me, z);
    } else {
      forall k | 0 <= k < |ps|
        ensures !IsZombieOf(ps[k], me)
      {
      }
    }
  }

  lemma FirstIsOne(ps: seq<Proc>, me: nat, z: nat, i: nat)
    requires FirstZombie(ps, me, z) && FirstZombie(ps, me, i)
    ensures z == i
  {
  }

  /** Who the family is does not depend on where `me` is in the kernel. */
  lemma SameKids(ps: seq<Proc>, qs: seq<Proc>, me: nat, z: nat)
    requires me < |ps| == |qs| && qs == ps[me := qs[me]]
    requires qs[me].parent == ps[me].parent && qs[me].state == ps[me].state && qs[me].killed == ps[me].killed
    ensures FirstZombie(ps, me, z) <==> FirstZombie(qs, me, z)
    ensures LivingKids(ps, me) <==> LivingKids(qs, me)
  {
    forall k | 0 <= k < |ps|
      ensures qs[k].parent == ps[k].parent && qs[k].state == ps[k].state
    {
    }
    if LivingKids(ps, me) {
      var k :| 0 <= k < |ps| && ps[k].parent == me;
      assert qs[k].parent == me;
    }
    if LivingKids(qs, me) {
      var k :| 0 <= k < |qs| && qs[k].parent == me;
      assert ps[k].parent == me;
    }
  }

  lemma PassMoves(s: State, e: Event, t: State, me: nat, i: nat)
    requires Enabled(s, e) && Pass(s, e, me) && s.procs[me].state == RUNNING && i < |s.procs| == |t.procs|
    requires t.cpus == s.cpus && t.procs == s.procs[me := t.procs[me]]
    requires t.procs[me] == s.procs[me].(chan := t.procs[me].chan, resume := t.procs[me].resume)
    requires e.Continue? ==> t.procs[me].chan == NoChan
    ensures |WaitStep(t, e.c, me).procs| == |s.procs| && Moves(s, e, i, WaitStep(t, e.c, me).procs[i])
  {
    SameKids(s.procs, t.procs, me, i);
    PassResult(t.procs, me);
    hide LivingKids, FirstZombie, WaitPass;
    if WaitPass(t.procs, me).Found? {
      var z := WaitPass(t.procs, me).slot;
      SameKids(s.procs, t.procs, me, z);
      FoundMoves(s, e, t, me, z, i);
    } else {
      EmptyMoves(s, e, t, me, i);
    }
    hide Moves;
  }

  lemma EmptyMoves(s: State, e: Event, t: State, me: nat, i: nat)
    requires Enabled(s, e) && Pass(s, e, me) && s.procs[me].state == RUNNING && i < |s.procs| == |t.procs|
    requires t.procs == s.procs[me := t.procs[me]] && !FirstZombie(s.procs, me, i)
    requires t.procs[me] == s.procs[me].(chan := t.procs[me].chan, resume := t.procs[me].resume)
    requires e.Continue? ==> t.procs[me].chan == NoChan
    ensures var sleeper := t.procs[me].(chan := ProcChan(me), state := SLEEPING, resume := FromWait);
            Moves(s, e, i, if i == me && LivingKids(s.procs, me) && !s.procs[me].killed then sleeper else t.procs[i])
  {
    hide LivingKids, FirstZombie;
  }

  lemma FoundMoves(s: State, e: Event, t: State, me: nat, z: nat, i: nat)
    requires Enabled(s, e) && Pass(s, e, me) && s.procs[me].state == RUNNING && i < |s.procs| == |t.procs|
    requires t.procs == s.procs[me := t.procs[me]] && FirstZombie(s.procs, me, z)
    requires t.procs[me] == s.procs[me].(chan := t.procs[me].chan, resume := t.procs[me].resume)
    requires e.Continue? ==> t.procs[me].chan == NoChan
    ensures Moves(s, e, i, if i == z then Reaped(t.procs[z]) else t.procs[i])
  {
    ZombieIs(s.procs, me, z);
    if IsReaped(s, e, i) {
      FirstIsOne(s.procs, me, z, i);
    }
    hide LivingKids, FirstZombie;
  }

  lemma ZombieIs(ps: seq<Proc>, me: nat, z: nat)
    requires FirstZombie(ps, me, z)
    ensures z < |ps| && ps[z].state == ZOMBIE && !LivingKids(ps, me)
  {
  }

  lemma WaitMoves(s: State, e: Event, i: nat)
    requires Inv(s) && Enabled(s, e) && i < |s.procs| && (e.Wait? || e.Continue?)
    ensures |Step(s, e).procs| == |s.procs| && Moves(s, e, i, Step(s, e).procs[i])
  {
    hide TableOk, CpusOk, Ticks, WaitStep, LivingKids, FirstZombie;
    OneCpu(s, e.c);
    var me := s.cpus[e.c].p;
    var p := s.procs[me];
    if e.Wait? {
      assert s.procs == s.procs[me := p];
      PassMoves(s, e, s, me, i);
    } else if p.resume == FromWait {
      var awake := SetProc(s, me, p.(chan := NoChan, resume := Start));
      PassMoves(s, e, awake, me, i);
      assert Step(s, e) == WaitStep(awake, e.c, me);
    } else {
      assert !Pass(s, e, me);
    }
  }

  lemma ExitMoves(s: State, e: Event, i: nat)
    requires Inv(s) && Enabled(s, e) && i < |s.procs| && e.Exit?
    ensures |Step(s, e).procs| == |s.procs| && Moves(s, e, i, Step(s, e).procs[i])
  {
    hide TableOk, CpusOk, Ticks, ExitTable, LivingKids, FirstZombie;
    OneCpu(s, e.c);
    var me := s.cpus[e.c].p;
    ExitEntry(s.procs, me, i);
    OneSlot(s.procs, s.nextpid, i);
    assert HasZombie(s.procs, me) <==>
           exists k :: 0 <= k < |s.procs| && s.procs[k].parent == me && s.procs[k].state == ZOMBIE;
  }

  lemma AllocMoves(s: State, e: Event, i: nat)
    requires Inv(s) && Enabled(s, e) && i < |s.procs| && e.ForkAlloc?
    ensures |Step(s, e).procs| == |s.procs| && Moves(s, e, i, Step(s, e).procs[i])
  {
    hide TableOk, CpusOk, Ticks, LivingKids, FirstZombie;
    OneCpu(s, e.c);
  }

  lemma ForkMoves(s: State, e: Event, i: nat)
    requires Inv(s) && Enabled(s, e) && i < |s.procs| && (e.ForkStack? || e.ForkCopy?)
    ensures |Step(s, e).procs| == |s.procs| && Moves(s, e, i, Step(s, e).procs[i])
  {
    hide TableOk, CpusOk, Ticks, LivingKids, FirstZombie;
    OneCpu(s, e.c);
    OneSlot(s.procs, s.nextpid, s.cpus[e.c].p);
  }

  lemma PublishMoves(s: State, e: Event, i: nat)
    requires Inv(s) && Enabled(s, e) && i < |s.procs| && (e.ForkAdopt? || e.ForkPublish?)
    ensures |Step(s, e).procs| == |s.procs| && Moves(s, e, i, Step(s, e).procs[i])
  {
    hide TableOk, CpusOk, Ticks, LivingKids, FirstZombie;
    OneCpu(s, e.c);
    OneSlot(s.procs, s.nextpid, s.cpus[e.c].p);
  }

  lemma SchedulerMoves(s: State, e: Event, i: nat)
    requires Inv(s) && Enabled(s, e) && i < |s.procs|
    requires e.Acquire? || e.Nothing? || e.Dispatch? || e.Switch? || e.Release?
    ensures |Step(s, e).procs| == |s.procs| && Moves(s, e, i, Step(s, e).procs[i])
  {
    hide Inv, LivingKids, FirstZombie;
  }

  lemma LeaveMoves(s: State, e: Event, i: nat)
    requires Inv(s) && Enabled(s, e) && i < |s.procs| && (e.Yield? || e.Sleep? || e.Fault?)
    ensures |Step(s, e).procs| == |s.procs| && Moves(s, e, i, Step(s, e).procs[i])
  {
    hide TableOk, CpusOk, Ticks, LivingKids, FirstZombie;
    OneCpu(s, e.c);
  }

  lemma KillMoves(s: State, e: Event, i: nat)
    requires Inv(s) && Enabled(s, e) && i < |s.procs| && e.Kill?
    ensures |Step(s, e).procs| == |s.procs| && Moves(s, e, i, Step(s, e).procs[i])
  {
    OneSlot(s.procs, s.nextpid, i);
    AllDistinct(s.procs, s.nextpid);
    hide Inv, LivingKids, FirstZombie;
  }

  lemma TableMoves(s: State, e: Event, i: nat)
    requires Enabled(s, e) && i < |s.procs| && (e.Wakeup? || e.Assign?)
    ensures |Step(s, e).procs| == |s.procs| && Moves(s, e, i, Step(s, e).procs[i])
  {
    hide LivingKids, FirstZombie;
  }

  /** Every step moves every process as the diagram says, and carries its fields on. */
  lemma StepMoves(s: State, e: Event, i: nat)
    requires Inv(s) && Enabled(s, e) && i < |s.procs|
    ensures |Step(s, e).procs| == |s.procs| && Moves(s, e, i, Step(s, e).procs[i])
  {
    hide Moves, Step, Inv;
    if e.ForkAlloc? {
      AllocMoves(s, e, i);
    } else if e.ForkStack? || e.ForkCopy? {
      ForkMoves(s, e, i);
    } else if e.ForkAdopt? || e.ForkPublish? {
      PublishMoves(s, e, i);
    } else if e.Continue? || e.Wait? {
      WaitMoves(s, e, i);
    } else if e.Exit? {
      ExitMoves(s, e, i);
    } else if e.Yield? || e.Sleep? || e.Fault? {
      LeaveMoves(s, e, i);
    } else if e.Kill? {
      KillMoves(s, e, i);
    } else if e.Wakeup? || e.Assign? {
      TableMoves(s, e, i);
    } else {
      SchedulerMoves(s, e, i);
    }
  }

  // ---- Over runs ----

  lemma RunMoves(r: Run, i: nat)
    requires ValidRun(r) && r.Then? && i < NPROC
    ensures |Final(r.before).procs| == |Final(r).procs| == NPROC
    ensures Moves(Final(r.before), r.e, i, Final(r).procs[i])
  {
    EveryRunKeeps(r.before);
    AllDistinct(Final(r.before).procs, Final(r.before).nextpid);
    hide Inv, Step, Enabled, TableOk, Moves;
    StepMoves(Final(r.before), r.e, i);
  }

  /** What a pass of `wait` comes to, in every run: asleep if and only if the
      process has children, all of them living, and is not killed; if there is a
      zombie child, the lowest one is reaped and no other. */
  lemma WaitComesTo(r: Run, me: nat, z: nat)
    requires ValidRun(r) && r.Then? && Pass(Final(r.before), r.e, me) && z < NPROC
    ensures |Final(r.before).procs| == |Final(r).procs| == NPROC && me < NPROC
    ensures var ps, qs := Final(r.before).procs, Final(r).procs;
            && (qs[me].state == SLEEPING <==> LivingKids(ps, me) && !ps[me].killed)
            && (qs[me].state == SLEEPING ==> qs[me].chan == ProcChan(me))
            && (ps[z].state != UNUSED && qs[z].state == UNUSED <==> FirstZombie(ps, me, z))
  {
    EveryRunKeeps(r.before);
    var s := Final(r.before);
    AllDistinct(s.procs, s.nextpid);
    RunMoves(r, me);
    RunMoves(r, z);
    OneCpu(s, r.e.c);
    hide Inv, Step, Enabled, TableOk, LivingKids, Final, ValidRun;
  }

  /** At the end of `p` process `i` falls asleep on `chan`. */
  ghost predicate WentToSleep(p: Run, i: nat, chan: Chan)
  {
    ValidRun(p) && p.Then? && FallsAsleep(Final(p.before), p.e, i) && chan == SleepsOn(p.e, i)
  }

  /** `r` continues `p` and nothing wakes process `i`. */
  ghost predicate Undisturbed(p: Run, r: Run, i: nat)
    requires ValidRun(r)
  {
    r == p || (r.Then? && !WakesUp(Final(r.before), r.e, i) && Undisturbed(p, r.before, i))
  }

  ghost predicate SleptSince(r: Run, i: nat, chan: Chan)
    requires ValidRun(r)
  {
    exists p :: WentToSleep(p, i, chan) && Undisturbed(p, r, i)
  }

  lemma SleptNext(r: Run, i: nat, chan: Chan)
    requires ValidRun(r) && r.Then?
    ensures SleptSince(r, i, chan) <==>
            WentToSleep(r, i, chan) || (SleptSince(r.before, i, chan) && !WakesUp(Final(r.before), r.e, i))
  {
    hide WentToSleep, WakesUp, Final;
    if SleptSince(r.before, i, chan) && !WakesUp(Final(r.before), r.e, i) {
      var p :| WentToSleep(p, i, chan) && Undisturbed(p, r.before, i);
      assert Undisturbed(p, r, i);
    }
    if WentToSleep(r, i, chan) {
      assert Undisturbed(r, r, i);
    }
    if SleptSince(r, i, chan) {
      var p :| WentToSleep(p, i, chan) && Undisturbed(p, r, i);
      assert p == r || Undisturbed(p, r.before, i);
    }
  }

  /** In every run: process `i` is asleep on `chan` if and only if it once went to
      sleep on it and nothing has woken it since: no `wakeup` of the address, no
      `kill` with its pid and, in `wait`, no exit of a child. */
  lemma {:induction false} AsleepIff(r: Run, i: nat, chan: Chan)
    requires ValidRun(r) && i < NPROC
    ensures |Final(r).procs| == NPROC
    ensures var p := Final(r).procs[i]; p.state == SLEEPING && p.chan == chan <==> SleptSince(r, i, chan)
    decreases r
  {
    match r
    case Start0(_) =>
    case Then(before, e) =>
      AsleepIff(before, i, chan);
      RunMoves(r, i);
      SleptNext(r, i, chan);
      SleepersOff(before, e, i);
      hide Final, ValidRun, FallsAsleep, WakesUp, SleptSince, By, IsReaped, GivenUp, TakenUp, Published, Leaves;
  }

  /** Whoever falls asleep was running. */
  lemma SleepersOff(r: Run, e: Event, i: nat)
    requires ValidRun(r) && Enabled(Final(r), e) && i < NPROC
    ensures |Final(r).procs| == NPROC
    ensures FallsAsleep(Final(r), e, i) ==> Final(r).procs[i].state == RUNNING
  {
    EveryRunKeeps(r);
    var s := Final(r);
    AllDistinct(s.procs, s.nextpid);
    hide Final, ValidRun, LivingKids;
    if FallsAsleep(s, e, i) {
      OneCpu(s, e.c);
    }
  }
}
