/**
 What every step of the process-table protocol keeps, and what follows from it
 in every state that some run reaches.
 */
module ProcInv {
  import opened Params
  import opened Procs
  import opened ProcSteps

  // ---- The table ----

  predicate InWait(p: Proc)
  {
    p.state == SLEEPING && p.resume == FromWait
  }

  /** One slot by itself. */
  ghost predicate SlotOk(p: Proc, i: nat, nextpid: nat)
  {
    && p.pid < nextpid
    && (p.state == UNUSED ==> p.parent == -1 && !p.kstack)
    && (p.state != UNUSED ==> p.pid != 0 && p.tickets >= 1)
    && (HasThread(p) ==> p.kstack && p.pgdir && (i != INIT ==> p.parent != -1))
    && (!HasThread(p) ==> p.ticks == 0 && p.work.NoWork?)
    && (i == INIT ==> Alive(p) && p.pid == 1 && p.parent == -1)
    && (p.state == SLEEPING ==>
          && p.work.NoWork?
          && ((p.resume == FromSleep && p.chan.Address?) || (p.resume == FromWait && p.chan == ProcChan(i))))
    && (p.state == ZOMBIE ==> p.work.NoWork?)
    && (p.work.Forking? ==> p.resume == Start || p.resume == FromYield)
  }

  /** The parent is alive and older. */
  ghost predicate ParentOk(ps: seq<Proc>, i: nat)
    requires i < |ps|
  {
    var q := ps[i].parent;
    q != -1 ==> 0 <= q < |ps| && Alive(ps[q]) && ps[q].pid < ps[i].pid
  }

  /** A process asleep in `wait` has a reason to be: a child, none of them a
      zombie, and it is not killed. */
  ghost predicate WaitOk(ps: seq<Proc>, i: nat)
    requires i < |ps|
  {
    InWait(ps[i]) ==> !ps[i].killed && HasKid(ps, i) && !HasZombie(ps, i)
  }

  /** The slot that a `fork` in progress works on. */
  ghost predicate ForkOk(ps: seq<Proc>, i: nat)
    requires i < |ps|
  {
    var w := ps[i].work;
    w.Forking? ==>
      && w.child < |ps|
      && ps[w.child].state == EMBRYO
      && ps[w.child].kstack == (w.stage != Allocated)
      && (w.stage == Copied || w.stage == Adopted ==> ps[w.child].pgdir)
      && ps[w.child].parent == (if w.stage == Adopted then i else -1)
      && ps[i].pid < ps[w.child].pid
  }

  ghost predicate ForksDistinct(ps: seq<Proc>)
  {
    forall i, j :: 0 <= i < j < |ps| && ps[i].work.Forking? && ps[j].work.Forking? ==>
      ps[i].work.child != ps[j].work.child
  }

  ghost predicate PidsDistinct(ps: seq<Proc>)
  {
    forall i, j :: 0 <= i < j < |ps| && ps[i].pid != 0 ==> ps[i].pid != ps[j].pid
  }

  ghost predicate TableOk(ps: seq<Proc>, nextpid: nat)
  {
    && |ps| == NPROC && nextpid > 1
    && (forall i: nat {:trigger SlotOk(ps[i], i, nextpid)} :: i < |ps| ==> SlotOk(ps[i], i, nextpid))
    && (forall i: nat {:trigger ParentOk(ps, i)} :: i < |ps| ==> ParentOk(ps, i))
    && (forall i: nat {:trigger WaitOk(ps, i)} :: i < |ps| ==> WaitOk(ps, i))
    && (forall i: nat {:trigger ForkOk(ps, i)} :: i < |ps| ==> ForkOk(ps, i))
    && ForksDistinct(ps)
    && PidsDistinct(ps)
  }

  // ---- The CPUs ----

  ghost predicate CpuOk(ps: seq<Proc>, cpus: seq<Cpu>, lock: Lock, c: nat)
    requires c < |cpus|
  {
    && (HoldsLock(cpus[c]) <==> lock == Held(c))
    && (HasProc(cpus[c]) ==> cpus[c].p < |ps|)
    && (cpus[c].Running? || cpus[c].Resuming? ==> ps[cpus[c].p].state == RUNNING)
    && (cpus[c].Running? ==> ps[cpus[c].p].resume == Start)
    && (cpus[c].Leaving? || cpus[c].Left? ==> HasThread(ps[cpus[c].p]) && ps[cpus[c].p].state != RUNNING)
  }

  ghost predicate CpusDistinct(cpus: seq<Cpu>)
  {
    forall c, d :: 0 <= c < d < |cpus| && HasProc(cpus[c]) && HasProc(cpus[d]) ==> cpus[c].p != cpus[d].p
  }

  ghost predicate RunsOn(cpus: seq<Cpu>, c: nat, i: nat)
  {
    c < |cpus| && (cpus[c].Running? || cpus[c].Resuming?) && cpus[c].p == i
  }

  ghost predicate HasCpu(cpus: seq<Cpu>, i: nat)
  {
    exists c: nat :: RunsOn(cpus, c, i)
  }

  ghost predicate CpusOk(ps: seq<Proc>, cpus: seq<Cpu>, lock: Lock)
  {
    && (lock.Held? ==> lock.cpu < |cpus|)
    && (forall c: nat {:trigger CpuOk(ps, cpus, lock, c)} :: c < |cpus| ==> CpuOk(ps, cpus, lock, c))
    && CpusDistinct(cpus)
    && (forall i: nat {:trigger HasCpu(cpus, i)} :: i < |ps| && ps[i].state == RUNNING ==> HasCpu(cpus, i))
  }

  // ---- Ticks ----

  ghost function TicksTo(ps: seq<Proc>, k: nat): (n: nat)
    requires k <= |ps|
  {
    if k == 0 then 0 else TicksTo(ps, k - 1) + ps[k - 1].ticks
  }

  ghost function Ticks(ps: seq<Proc>): (n: nat)
  {
    TicksTo(ps, |ps|)
  }

  ghost predicate Inv(s: State)
  {
    && TableOk(s.procs, s.nextpid)
    && CpusOk(s.procs, s.cpus, s.lock)
    && s.decisions == Ticks(s.procs) + s.reapedTicks
  }

  lemma {:induction false} SameTicks(ps: seq<Proc>, qs: seq<Proc>, k: nat)
    requires k <= |ps| == |qs| && forall i :: 0 <= i < k ==> ps[i].ticks == qs[i].ticks
    ensures TicksTo(ps, k) == TicksTo(qs, k)
  {
    if k > 0 {
      SameTicks(ps, qs, k - 1);
    }
  }

  lemma {:induction false} TicksUpdate(ps: seq<Proc>, i: nat, q: Proc, k: nat)
    requires i < k <= |ps|
    ensures TicksTo(ps[i := q], k) == TicksTo(ps, k) - ps[i].ticks + q.ticks
  {
    if k - 1 == i {
      SameTicks(ps, ps[i := q], k - 1);
    } else {
      TicksUpdate(ps, i, q, k - 1);
    }
  }

  // ---- Changes that touch neither the tree nor a fork ----

  predicate SameClass(p: Proc, q: Proc)
  {
    Alive(p) == Alive(q) && (!Alive(p) ==> p.state == q.state)
  }

  /** `q` takes the place of `p` in slot `i`. */
  ghost predicate Gentle(ps: seq<Proc>, i: nat, q: Proc)
    requires i < |ps|
  {
    var p := ps[i];
    && SameClass(p, q) && q.pid == p.pid && q.parent == p.parent && q.work == p.work
    && q.kstack == p.kstack && q.pgdir == p.pgdir
    && (p.tickets >= 1 ==> q.tickets >= 1)
    && (q.work.Forking? ==> q.resume == Start || q.resume == FromYield)
    && (!HasThread(p) ==> q.ticks == p.ticks)
    && (q.state == SLEEPING && p.state != SLEEPING ==>
          && p.work.NoWork?
          && ((q.resume == FromSleep && q.chan.Address?) || (q.resume == FromWait && q.chan == ProcChan(i))))
    && (q.state == SLEEPING && p.state == SLEEPING ==> q.resume == p.resume && q.chan == p.chan)
    && (InWait(q) ==> !q.killed && (InWait(p) || (HasKid(ps, i) && !HasZombie(ps, i))))
  }

  ghost predicate GentleTable(ps: seq<Proc>, qs: seq<Proc>)
  {
    |qs| == |ps| && forall i: nat {:trigger Gentle(ps, i, qs[i])} :: i < |ps| ==> Gentle(ps, i, qs[i])
  }

  lemma GentleKeeps(ps: seq<Proc>, qs: seq<Proc>, nextpid: nat)
    requires TableOk(ps, nextpid) && GentleTable(ps, qs)
    ensures TableOk(qs, nextpid)
  {
    assert forall i: nat :: i < |ps| ==> Gentle(ps, i, qs[i]);
    forall i: nat | i < |qs|
      ensures SlotOk(qs[i], i, nextpid)
    {
      assert SlotOk(ps[i], i, nextpid);
    }
    forall i: nat | i < |qs|
      ensures ParentOk(qs, i)
    {
      assert ParentOk(ps, i);
    }
    forall i: nat | i < |qs|
      ensures WaitOk(qs, i)
    {
      assert WaitOk(ps, i);
      SameFamily(ps, qs, i);
    }
    forall i: nat | i < |qs|
      ensures ForkOk(qs, i)
    {
      assert ForkOk(ps, i);
    }
  }

  lemma SameFamily(ps: seq<Proc>, qs: seq<Proc>, i: nat)
    requires GentleTable(ps, qs)
    ensures HasKid(ps, i) ==> HasKid(qs, i)
    ensures HasZombie(qs, i) ==> HasZombie(ps, i)
  {
    if HasKid(ps, i) {
      var j: nat :| j < |ps| && ps[j].parent == i;
      assert Gentle(ps, j, qs[j]);
    }
    if HasZombie(qs, i) {
      var j: nat :| j < |qs| && IsZombieOf(qs[j], i);
      assert Gentle(ps, j, qs[j]);
      assert IsZombieOf(ps[j], i);
    }
  }

  /** A gentle change of one slot. */
  lemma GentleOne(ps: seq<Proc>, i: nat, q: Proc, nextpid: nat)
    requires TableOk(ps, nextpid) && i < |ps| && Gentle(ps, i, q)
    ensures TableOk(ps[i := q], nextpid)
  {
    var qs := ps[i := q];
    forall j: nat | j < |ps|
      ensures Gentle(ps, j, qs[j])
    {
      assert WaitOk(ps, j) && SlotOk(ps[j], j, nextpid);
    }
    GentleKeeps(ps, qs, nextpid);
  }

  // ---- fork ----

  /** The slot `i` belongs to nobody, or to the `fork` of process `me`. */
  ghost predicate Owned(ps: seq<Proc>, me: nat, i: nat)
  {
    && me < |ps| && i < |ps| && i != me && ps[me].state == RUNNING && ps[me].resume == Start && !HasThread(ps[i])
    && (ps[i].state == UNUSED ==> ps[me].work.NoWork?)
    && (ps[i].state == EMBRYO ==> ps[me].work.Forking? && ps[me].work.child == i)
  }

  /** What `fork` may make of its slot: a new pid is the next one, and the only
      parent it gets is the forker. */
  ghost predicate Fits(ps: seq<Proc>, nextpid: nat, me: nat, i: nat, child: Proc, newpid: nat)
    requires me < |ps| && i < |ps|
  {
    && nextpid <= newpid && SlotOk(child, i, newpid) && child.state != ZOMBIE && child.state != SLEEPING
    && child.work.NoWork?
    && (child.pid == ps[i].pid || child.pid == nextpid)
    && (child.parent == -1 || (child.parent == me && ps[me].pid < child.pid))
    && (ps[i].parent == me ==> child.parent == me)
  }

  function AfterFork(ps: seq<Proc>, me: nat, i: nat, child: Proc, work: Work): (qs: seq<Proc>)
    requires me < |ps| && i < |ps|
    ensures |qs| == |ps|
    ensures i != me ==> qs[me] == ps[me].(work := work) && qs[i] == child
    ensures forall j :: 0 <= j < |ps| && j != i && j != me ==> qs[j] == ps[j]
  {
    ps[i := child][me := ps[i := child][me].(work := work)]
  }

  /** The forker's record of its slot is right. */
  ghost predicate Records(ps: seq<Proc>, me: nat, i: nat, child: Proc, work: Work)
    requires me < |ps|
  {
    work.Forking? ==>
      && work.child == i && child.state == EMBRYO && child.kstack == (work.stage != Allocated)
      && (work.stage == Copied || work.stage == Adopted ==> child.pgdir)
      && child.parent == (if work.stage == Adopted then me else -1)
      && ps[me].pid < child.pid
  }

  ghost predicate ForkMove(ps: seq<Proc>, nextpid: nat, me: nat, i: nat, child: Proc, work: Work, newpid: nat)
  {
    && TableOk(ps, nextpid) && Owned(ps, me, i) && Fits(ps, nextpid, me, i, child, newpid)
    && Records(ps, me, i, child, work)
  }

  lemma ForkSlots(ps: seq<Proc>, nextpid: nat, me: nat, i: nat, child: Proc, work: Work, newpid: nat)
    requires ForkMove(ps, nextpid, me, i, child, work, newpid)
    ensures forall j: nat :: j < |ps| ==> SlotOk(AfterFork(ps, me, i, child, work)[j], j, newpid)
  {
    hide AfterFork, TableOk;
    forall j: nat | j < |ps|
      ensures SlotOk(AfterFork(ps, me, i, child, work)[j], j, newpid)
    {
      OneSlot(ps, nextpid, j);
    }
  }

  lemma OneSlot(ps: seq<Proc>, nextpid: nat, j: nat)
    requires TableOk(ps, nextpid) && j < |ps|
    ensures SlotOk(ps[j], j, nextpid) && ParentOk(ps, j) && WaitOk(ps, j) && ForkOk(ps, j)
  {
  }

  lemma AllDistinct(ps: seq<Proc>, nextpid: nat)
    requires TableOk(ps, nextpid)
    ensures |ps| == NPROC && nextpid > 1 && ForksDistinct(ps) && PidsDistinct(ps)
  {
  }

  lemma ForkParents(ps: seq<Proc>, nextpid: nat, me: nat, i: nat, child: Proc, work: Work, newpid: nat)
    requires ForkMove(ps, nextpid, me, i, child, work, newpid)
    ensures forall j: nat :: j < |ps| ==> ParentOk(AfterFork(ps, me, i, child, work), j)
  {
    hide AfterFork, TableOk, SlotOk, ForkOk, WaitOk;
    forall j: nat | j < |ps|
      ensures ParentOk(AfterFork(ps, me, i, child, work), j)
    {
      OneSlot(ps, nextpid, j);
    }
  }

  lemma ForkWaits(ps: seq<Proc>, nextpid: nat, me: nat, i: nat, child: Proc, work: Work, newpid: nat)
    requires ForkMove(ps, nextpid, me, i, child, work, newpid)
    ensures forall j: nat :: j < |ps| ==> WaitOk(AfterFork(ps, me, i, child, work), j)
  {
    hide AfterFork, TableOk, SlotOk, ForkOk;
    var qs := AfterFork(ps, me, i, child, work);
    OneSlot(ps, nextpid, i);
    forall j: nat | j < |ps|
      ensures WaitOk(qs, j)
    {
      OneSlot(ps, nextpid, j);
      if InWait(qs[j]) {
        var k: nat :| k < |ps| && ps[k].parent == j;
        assert k != i by { ChildOfForker(ps, nextpid, me, i); }
        assert qs[k].parent == j;
        assert forall k :: 0 <= k < |ps| ==> !IsZombieOf(ps[k], j);
        assert forall k :: 0 <= k < |qs| ==> !IsZombieOf(qs[k], j);
      }
    }
  }

  /** The slot a `fork` works on has no parent but the forker. */
  lemma ChildOfForker(ps: seq<Proc>, nextpid: nat, me: nat, i: nat)
    requires TableOk(ps, nextpid) && Owned(ps, me, i)
    ensures ps[i].parent == -1 || ps[i].parent == me
  {
    assert SlotOk(ps[i], i, nextpid) && ForkOk(ps, me);
  }

  lemma ForkForks(ps: seq<Proc>, nextpid: nat, me: nat, i: nat, child: Proc, work: Work, newpid: nat)
    requires ForkMove(ps, nextpid, me, i, child, work, newpid)
    ensures forall j: nat :: j < |ps| ==> ForkOk(AfterFork(ps, me, i, child, work), j)
    ensures ForksDistinct(AfterFork(ps, me, i, child, work))
  {
    hide AfterFork, TableOk, SlotOk, ParentOk, WaitOk;
    AllDistinct(ps, nextpid);
    forall j: nat | j < |ps| && j != me && ps[j].work.Forking?
      ensures ps[j].work.child != i && ps[j].work.child != me && ForkOk(ps, j)
    {
      OneSlot(ps, nextpid, j);
      OtherFork(ps, nextpid, me, i, j);
    }
  }

  lemma OtherFork(ps: seq<Proc>, nextpid: nat, me: nat, i: nat, j: nat)
    requires TableOk(ps, nextpid) && Owned(ps, me, i) && j < |ps| && j != me && ps[j].work.Forking?
    ensures ps[j].work.child != i && ps[j].work.child != me
  {
    assert ForkOk(ps, j);
  }

  lemma ForkPids(ps: seq<Proc>, nextpid: nat, me: nat, i: nat, child: Proc, work: Work, newpid: nat)
    requires ForkMove(ps, nextpid, me, i, child, work, newpid)
    ensures PidsDistinct(AfterFork(ps, me, i, child, work))
  {
    hide AfterFork, SlotOk, ParentOk, WaitOk, ForkOk, ForksDistinct;
    forall j: nat | j < |ps|
      ensures ps[j].pid < nextpid
    {
      PidBelow(ps, nextpid, j);
    }
  }

  lemma PidBelow(ps: seq<Proc>, nextpid: nat, j: nat)
    requires TableOk(ps, nextpid) && j < |ps|
    ensures ps[j].pid < nextpid
  {
    assert SlotOk(ps[j], j, nextpid);
  }

  lemma ForkKeeps(ps: seq<Proc>, nextpid: nat, me: nat, i: nat, child: Proc, work: Work, newpid: nat)
    requires ForkMove(ps, nextpid, me, i, child, work, newpid)
    ensures TableOk(AfterFork(ps, me, i, child, work), newpid)
  {
    ForkSlots(ps, nextpid, me, i, child, work, newpid);
    ForkParents(ps, nextpid, me, i, child, work, newpid);
    ForkWaits(ps, nextpid, me, i, child, work, newpid);
    ForkForks(ps, nextpid, me, i, child, work, newpid);
    ForkPids(ps, nextpid, me, i, child, work, newpid);
  }

  // ---- exit ----

  /** The table after `exit`, entry by entry. */
  lemma ExitEntry(ps: seq<Proc>, me: nat, j: nat)
    requires me < |ps| && j < |ps| && ps[me].state == RUNNING
    ensures
      var p := ps[j];
      var woken := p.state == SLEEPING &&
                         (p.chan == ProcChan(ps[me].parent) || (HasZombie(ps, me) && p.chan == ProcChan(INIT)));
      ExitTable(ps, me, INIT)[j] ==
      p.(parent := if p.parent == me then INIT else p.parent,
         state := if j == me then ZOMBIE else if woken then RUNNABLE else p.state)
  {
  }

  lemma ExitSlots(ps: seq<Proc>, nextpid: nat, me: nat)
    requires TableOk(ps, nextpid) && me < |ps| && me != INIT && ps[me].state == RUNNING && ps[me].work.NoWork?
    ensures var qs := ExitTable(ps, me, INIT);
            forall j: nat :: j < |ps| ==> SlotOk(qs[j], j, nextpid) && ParentOk(qs, j) && ForkOk(qs, j)
  {
    hide ExitTable, TableOk, WaitOk, HasZombie;
    var qs := ExitTable(ps, me, INIT);
    forall j: nat | j < |ps|
      ensures SlotOk(qs[j], j, nextpid) && ParentOk(qs, j) && ForkOk(qs, j)
    {
      OneSlot(ps, nextpid, j);
      OneSlot(ps, nextpid, me);
      OneSlot(ps, nextpid, INIT);
      ExitEntry(ps, me, j);
      ExitEntry(ps, me, INIT);
      if qs[j].parent != -1 {
        ExitEntry(ps, me, qs[j].parent);
      }
      if ps[j].work.Forking? {
        ExitEntry(ps, me, ps[j].work.child);
      }
    }
  }

  lemma ExitWaits(ps: seq<Proc>, nextpid: nat, me: nat, j: nat)
    requires TableOk(ps, nextpid) && me < |ps| && me != INIT && ps[me].state == RUNNING && j < |ps|
    ensures WaitOk(ExitTable(ps, me, INIT), j)
  {
    hide ExitTable, TableOk, ForkOk;
    var qs := ExitTable(ps, me, INIT);
    OneSlot(ps, nextpid, j);
    OneSlot(ps, nextpid, me);
    ExitEntry(ps, me, j);
    if InWait(qs[j]) {
      var k: nat :| k < |ps| && ps[k].parent == j;
      ExitEntry(ps, me, k);
      forall k: nat | k < |qs|
        ensures !IsZombieOf(qs[k], j)
      {
        ExitEntry(ps, me, k);
        assert !IsZombieOf(ps[k], j);
        assert IsZombieOf(ps[k], me) ==> HasZombie(ps, me);
      }
    }
  }

  lemma ExitDistinct(ps: seq<Proc>, nextpid: nat, me: nat)
    requires TableOk(ps, nextpid) && me < |ps| && ps[me].state == RUNNING
    ensures ForksDistinct(ExitTable(ps, me, INIT)) && PidsDistinct(ExitTable(ps, me, INIT))
  {
    hide ExitTable, TableOk;
    AllDistinct(ps, nextpid);
    forall j: nat | j < |ps|
      ensures ExitTable(ps, me, INIT)[j].pid == ps[j].pid && ExitTable(ps, me, INIT)[j].work == ps[j].work
    {
      ExitEntry(ps, me, j);
    }
  }

  lemma ExitKeeps(ps: seq<Proc>, nextpid: nat, me: nat)
    requires TableOk(ps, nextpid) && me < |ps| && me != INIT && ps[me].state == RUNNING && ps[me].work.NoWork?
    ensures TableOk(ExitTable(ps, me, INIT), nextpid)
  {
    hide ExitTable, SlotOk, ParentOk, ForkOk, WaitOk;
    ExitSlots(ps, nextpid, me);
    ExitDistinct(ps, nextpid, me);
    forall j: nat | j < |ps|
      ensures WaitOk(ExitTable(ps, me, INIT), j)
    {
      ExitWaits(ps, nextpid, me, j);
    }
  }

  // ---- wait ----

  /** Reaping a zombie child of a running process. */
  lemma ReapKeeps(ps: seq<Proc>, nextpid: nat, me: nat, z: nat)
    requires TableOk(ps, nextpid) && me < |ps| && ps[me].state == RUNNING && z < |ps| && IsZombieOf(ps[z], me)
    ensures TableOk(ps[z := Reaped(ps[z])], nextpid)
  {
    hide TableOk, HasKid, HasZombie;
    var qs := ps[z := Reaped(ps[z])];
    AllDistinct(ps, nextpid);
    forall j: nat | j < |ps|
      ensures SlotOk(qs[j], j, nextpid) && ParentOk(qs, j) && ForkOk(qs, j) && WaitOk(qs, j)
    {
      OneSlot(ps, nextpid, j);
      OneSlot(ps, nextpid, z);
      ReapFamily(ps, me, z, j);
    }
    TableOkIs(qs, nextpid);
  }

  lemma ReapFamily(ps: seq<Proc>, me: nat, z: nat, j: nat)
    requires z < |ps| && IsZombieOf(ps[z], me) && j < |ps|
    ensures j != me && HasKid(ps, j) ==> HasKid(ps[z := Reaped(ps[z])], j)
    ensures HasZombie(ps[z := Reaped(ps[z])], j) ==> HasZombie(ps, j)
  {
    var qs := ps[z := Reaped(ps[z])];
    if j != me && HasKid(ps, j) {
      var k: nat :| k < |ps| && ps[k].parent == j;
      assert qs[k].parent == j;
    }
    if HasZombie(qs, j) {
      var k: nat :| k < |qs| && IsZombieOf(qs[k], j);
      assert IsZombieOf(ps[k], j);
    }
  }

  lemma TableOkIs(ps: seq<Proc>, nextpid: nat)
    requires |ps| == NPROC && nextpid > 1 && ForksDistinct(ps) && PidsDistinct(ps)
    requires forall j: nat {:trigger SlotOk(ps[j], j, nextpid)} :: j < |ps| ==>
      SlotOk(ps[j], j, nextpid) && ParentOk(ps, j) && ForkOk(ps, j) && WaitOk(ps, j)
    ensures TableOk(ps, nextpid)
  {
    hide ForkOk, WaitOk, ParentOk, ForksDistinct, PidsDistinct;
    forall j: nat | j < |ps|
      ensures SlotOk(ps[j], j, nextpid) && ParentOk(ps, j) && ForkOk(ps, j) && WaitOk(ps, j)
    {
      assert SlotOk(ps[j], j, nextpid);
    }
  }

  // ---- The CPUs ----

  ghost predicate StaysOff(ps: seq<Proc>, qs: seq<Proc>, i: nat)
    requires i < |ps| == |qs|
  {
    (ps[i].state == RUNNING <==> qs[i].state == RUNNING) && (ps[i].state == RUNNING ==> qs[i].resume == ps[i].resume)
  }

  /** CPU `c`, which has the lock or finds it free, goes to `m`; only process
      `x`, its old or its new one, starts or stops running. */
  ghost predicate CpuMove(ps: seq<Proc>, qs: seq<Proc>, cpus: seq<Cpu>, lock: Lock, c: nat, m: Cpu, x: int)
  {
    && |qs| == |ps| && c < |cpus| && (lock == Free || lock == Held(c))
    && (forall i: nat {:trigger StaysOff(ps, qs, i)} :: i < |ps| && i != x ==> StaysOff(ps, qs, i))
    && (HasProc(cpus[c]) ==> cpus[c].p == x)
    && (HasProc(m) ==> m.p == x && 0 <= x < |ps|)
    && (0 <= x < |ps| && !HasProc(cpus[c]) ==> ps[x].state == RUNNABLE && lock == Held(c))
    && (0 <= x < |ps| ==> (qs[x].state == RUNNING <==> m.Running? || m.Resuming?))
    && (m.Running? ==> qs[m.p].resume == Start)
    && (m.Leaving? || m.Left? ==> HasThread(qs[m.p]))
  }

  lemma CpuMoveKeeps(ps: seq<Proc>, qs: seq<Proc>, cpus: seq<Cpu>, lock: Lock, c: nat, m: Cpu, x: int)
    requires CpusOk(ps, cpus, lock) && CpuMove(ps, qs, cpus, lock, c, m, x)
    ensures CpusOk(qs, cpus[c := m], if HoldsLock(m) then Held(c) else Free)
  {
    var ds, lock' := cpus[c := m], if HoldsLock(m) then Held(c) else Free;
    forall d: nat | d < |ds|
      ensures CpuOk(qs, ds, lock', d)
    {
      OtherCpu(ps, qs, cpus, lock, c, m, x, d);
    }
    forall d: nat | d < |cpus| && d != c && HasProc(cpus[d])
      ensures cpus[d].p != x
    {
      OtherCpu(ps, qs, cpus, lock, c, m, x, d);
    }
    CpusApart(cpus, c, m, x);
    forall i: nat | i < |qs| && qs[i].state == RUNNING
      ensures HasCpu(ds, i)
    {
      if i == x {
        assert RunsOn(ds, c, i);
      } else {
        assert StaysOff(ps, qs, i) && HasCpu(cpus, i);
        var d: nat :| RunsOn(cpus, d, i);
        assert RunsOn(ds, d, i);
      }
    }
  }

  lemma OtherCpu(ps: seq<Proc>, qs: seq<Proc>, cpus: seq<Cpu>, lock: Lock, c: nat, m: Cpu, x: int, d: nat)
    requires CpusOk(ps, cpus, lock) && CpuMove(ps, qs, cpus, lock, c, m, x) && d < |cpus|
    ensures CpuOk(qs, cpus[c := m], if HoldsLock(m) then Held(c) else Free, d)
    ensures d != c && HasProc(cpus[d]) ==> cpus[d].p != x
  {
    assert CpuOk(ps, cpus, lock, d) && CpuOk(ps, cpus, lock, c);
    if d != c && HasProc(cpus[d]) {
      assert cpus[d].p != x;
      assert StaysOff(ps, qs, cpus[d].p);
    }
  }

  lemma CpusApart(cpus: seq<Cpu>, c: nat, m: Cpu, x: int)
    requires CpusDistinct(cpus) && c < |cpus| && (HasProc(m) ==> m.p == x)
    requires forall d: nat :: d < |cpus| && d != c && HasProc(cpus[d]) ==> cpus[d].p != x
    ensures CpusDistinct(cpus[c := m])
  {
  }

  ghost predicate SameRunning(ps: seq<Proc>, qs: seq<Proc>)
  {
    |qs| == |ps| &&
    forall i: nat {:trigger StaysOff(ps, qs, i)} :: i < |ps| ==>
      StaysOff(ps, qs, i) && (HasThread(ps[i]) ==> HasThread(qs[i]))
  }

  lemma SameRunningKeeps(ps: seq<Proc>, qs: seq<Proc>, cpus: seq<Cpu>, lock: Lock)
    requires CpusOk(ps, cpus, lock) && SameRunning(ps, qs)
    ensures CpusOk(qs, cpus, lock)
  {
    forall c: nat | c < |cpus|
      ensures CpuOk(qs, cpus, lock, c)
    {
      assert CpuOk(ps, cpus, lock, c);
      if HasProc(cpus[c]) {
        assert StaysOff(ps, qs, cpus[c].p);
      }
    }
    forall i: nat | i < |qs| && qs[i].state == RUNNING
      ensures HasCpu(cpus, i)
    {
      assert StaysOff(ps, qs, i);
    }
  }

  // ---- Every step ----

  lemma TicksKept(ps: seq<Proc>, qs: seq<Proc>)
    requires |ps| == |qs| && forall i :: 0 <= i < |ps| ==> ps[i].ticks == qs[i].ticks
    ensures Ticks(ps) == Ticks(qs)
  {
    SameTicks(ps, qs, |ps|);
  }

  lemma SchedulerStep(s: State, e: Event)
    requires Inv(s) && Enabled(s, e) && (e.Acquire? || e.Nothing? || e.Switch? || e.Release?)
    ensures Inv(Step(s, e))
  {
    hide TableOk, Ticks, CpusOk;
    OneCpu(s, e.c);
    var x := if HasProc(s.cpus[e.c]) then s.cpus[e.c].p else -1;
    var m := Step(s, e).cpus[e.c];
    CpuMoveKeeps(s.procs, s.procs, s.cpus, s.lock, e.c, m, x);
  }

  lemma OneCpu(s: State, c: nat)
    requires CpusOk(s.procs, s.cpus, s.lock) && c < |s.cpus|
    ensures CpuOk(s.procs, s.cpus, s.lock, c)
  {
  }

  lemma DispatchStep(s: State, e: Event)
    requires Inv(s) && Enabled(s, e) && e.Dispatch?
    ensures Inv(Step(s, e))
  {
    hide CpusOk, TableOk;
    var q := s.procs[e.slot].(state := RUNNING, ticks := s.procs[e.slot].ticks + 1);
    OneCpu(s, e.c);
    OneSlot(s.procs, s.nextpid, e.slot);
    GentleOne(s.procs, e.slot, q, s.nextpid);
    CpuMoveKeeps(s.procs, s.procs[e.slot := q], s.cpus, s.lock, e.c, Resuming(e.slot), e.slot);
    TicksUpdate(s.procs, e.slot, q, |s.procs|);
  }

  /** `yield`, `sleep` and the going to sleep of `wait`. */
  lemma LeaveStep(s: State, c: nat, q: Proc)
    requires Inv(s) && c < |s.cpus| && (s.cpus[c].Running? || s.cpus[c].Resuming?)
    requires (s.lock == Free || s.lock == Held(c))
    requires s.cpus[c].p < |s.procs| && Gentle(s.procs, s.cpus[c].p, q) && q.ticks == s.procs[s.cpus[c].p].ticks
    requires q.state != RUNNING
    ensures Inv(Leave(s, c, q))
  {
    hide CpusOk, TableOk;
    var i := s.cpus[c].p;
    OneCpu(s, c);
    GentleOne(s.procs, i, q, s.nextpid);
    CpuMoveKeeps(s.procs, s.procs[i := q], s.cpus, s.lock, c, Leaving(i), i);
    TicksKept(s.procs, s.procs[i := q]);
  }

  lemma YieldStep(s: State, e: Event)
    requires Inv(s) && Enabled(s, e) && (e.Yield? || e.Sleep?)
    ensures Inv(Step(s, e))
  {
    hide CpusOk, TableOk, Ticks;
    var i := s.cpus[e.c].p;
    OneCpu(s, e.c);
    var p := s.procs[i];
    if e.Yield? {
      LeaveStep(s, e.c, p.(state := RUNNABLE, resume := FromYield));
    } else {
      LeaveStep(s, e.c, p.(chan := Address(e.a), state := SLEEPING, resume := FromSleep));
    }
  }

  /** A pass of `wait`. */
  lemma WaitKeeps(s: State, c: nat, me: nat)
    requires Inv(s) && c < |s.cpus| && (s.cpus[c].Running? || s.cpus[c].Resuming?)
    requires (s.lock == Free || s.lock == Held(c))
    requires s.cpus[c].p == me < |s.procs| && s.procs[me].work.NoWork? && s.procs[me].resume == Start
    ensures Inv(WaitStep(s, c, me))
  {
    hide CpusOk, TableOk;
    OneCpu(s, c);
    match WaitPass(s.procs, me)
    case Found(z) =>
      ReapKeeps(s.procs, s.nextpid, me, z);
      CpuMoveKeeps(s.procs, s.procs[z := Reaped(s.procs[z])], s.cpus, s.lock, c, Running(me), me);
      TicksUpdate(s.procs, z, Reaped(s.procs[z]), |s.procs|);
    case NoChildren =>
      CpuMoveKeeps(s.procs, s.procs, s.cpus, s.lock, c, Running(me), me);
    case GoToSleep =>
      LeaveStep(s, c, s.procs[me].(chan := ProcChan(me), state := SLEEPING, resume := FromWait));
  }

  /** A process that was just switched to looks where it is. */
  lemma AwakeStep(s: State, c: nat, q: Proc)
    requires Inv(s) && c < |s.cpus| && s.cpus[c].Resuming? && s.cpus[c].p < |s.procs|
    requires var p := s.procs[s.cpus[c].p]; q == p.(chan := q.chan, resume := Start)
    ensures Inv(SetProc(s, s.cpus[c].p, q)) && s.lock == Held(c)
  {
    hide CpusOk, TableOk;
    var i := s.cpus[c].p;
    OneCpu(s, c);
    GentleOne(s.procs, i, q, s.nextpid);
    CpuMoveKeeps(s.procs, s.procs[i := q], s.cpus, s.lock, c, Resuming(i), i);
    assert s.cpus[c := Resuming(i)] == s.cpus;
    TicksKept(s.procs, s.procs[i := q]);
  }

  lemma ContinueStep(s: State, e: Event)
    requires Inv(s) && Enabled(s, e) && e.Continue?
    ensures Inv(Step(s, e))
  {
    hide CpusOk, TableOk, Ticks;
    var i := s.cpus[e.c].p;
    var p := s.procs[i];
    var q := if p.resume == FromSleep || p.resume == FromWait then p.(chan := NoChan, resume := Start)
             else p.(resume := Start);
    OneSlot(s.procs, s.nextpid, i);
    AwakeStep(s, e.c, q);
    var t := SetProc(s, i, q);
    OneCpu(t, e.c);
    if p.resume == FromWait {
      WaitKeeps(t, e.c, i);
    } else {
      CpuMoveKeeps(t.procs, t.procs, t.cpus, t.lock, e.c, Running(i), i);
    }
  }

  lemma WaitEvent(s: State, e: Event)
    requires Inv(s) && Enabled(s, e) && e.Wait?
    ensures Inv(Step(s, e))
  {
    hide CpusOk, TableOk, Ticks;
    OneCpu(s, e.c);
    WaitKeeps(s, e.c, s.cpus[e.c].p);
  }

  lemma ExitStep(s: State, e: Event)
    requires Inv(s) && Enabled(s, e) && e.Exit?
    ensures Inv(Step(s, e))
  {
    hide CpusOk, TableOk, ExitTable;
    var me := s.cpus[e.c].p;
    OneCpu(s, e.c);
    ExitKeeps(s.procs, s.nextpid, me);
    var qs := ExitTable(s.procs, me, INIT);
    forall i: nat | i < |s.procs|
      ensures (i != me ==> StaysOff(s.procs, qs, i)) && qs[i].ticks == s.procs[i].ticks
      ensures (i == me ==> qs[i].state == ZOMBIE)
    {
      ExitEntry(s.procs, me, i);
    }
    CpuMoveKeeps(s.procs, qs, s.cpus, s.lock, e.c, Leaving(me), me);
    TicksKept(s.procs, qs);
  }

  /** Steps that leave every process where it is. */
  lemma TableStep(s: State, qs: seq<Proc>, nextpid: nat)
    requires Inv(s) && TableOk(qs, nextpid) && SameRunning(s.procs, qs)
    requires forall i :: 0 <= i < |qs| ==> qs[i].ticks == s.procs[i].ticks
    ensures Inv(s.(procs := qs, nextpid := nextpid))
  {
    hide CpusOk, TableOk;
    SameRunningKeeps(s.procs, qs, s.cpus, s.lock);
    TicksKept(s.procs, qs);
  }

  lemma ForkRunning(ps: seq<Proc>, me: nat, i: nat, child: Proc, work: Work)
    requires me < |ps| && i < |ps| && i != me && !HasThread(ps[i]) && child.state != RUNNING
    requires child.ticks == ps[i].ticks
    ensures SameRunning(ps, AfterFork(ps, me, i, child, work))
    ensures forall j :: 0 <= j < |ps| ==> AfterFork(ps, me, i, child, work)[j].ticks == ps[j].ticks
  {
    hide AfterFork;
    var qs := AfterFork(ps, me, i, child, work);
    forall j: nat | j < |ps|
      ensures StaysOff(ps, qs, j) && (HasThread(ps[j]) ==> HasThread(qs[j]))
    {
    }
  }

  lemma ForkAllocStep(s: State, e: Event)
    requires Inv(s) && Enabled(s, e) && e.ForkAlloc?
    ensures Inv(Step(s, e))
  {
    hide CpusOk, TableOk, Ticks;
    var i, me := FindUnused(s.procs, 0), s.cpus[e.c].p;
    if i < |s.procs| {
      OneCpu(s, e.c);
      OneSlot(s.procs, s.nextpid, i);
      OneSlot(s.procs, s.nextpid, me);
      AllDistinct(s.procs, s.nextpid);
      var child, work := Embryo(s.procs[i], s.nextpid), Forking(i, Allocated);
      assert child.ticks == s.procs[i].ticks;
      ForkKeeps(s.procs, s.nextpid, me, i, child, work, s.nextpid + 1);
      ForkRunning(s.procs, me, i, child, work);
      TableStep(s, AfterFork(s.procs, me, i, child, work), s.nextpid + 1);
    }
  }

  /** The steps of `fork` on a slot it has. */
  lemma ForkWork(s: State, c: nat, child: Proc, work: Work)
    requires Inv(s) && RunsFreely(s, c) && s.procs[s.cpus[c].p].work.Forking?
    requires var me, i := s.cpus[c].p, Child(s, c);
             && i < |s.procs| && i != me && Fits(s.procs, s.nextpid, me, i, child, s.nextpid)
             && Records(s.procs, me, i, child, work) && child.state != RUNNING && child.ticks == s.procs[i].ticks
    ensures Inv(s.(procs := AfterFork(s.procs, s.cpus[c].p, Child(s, c), child, work)))
  {
    hide CpusOk, TableOk, Ticks, Fits, Records, AfterFork;
    var me, i := s.cpus[c].p, Child(s, c);
    OneCpu(s, c);
    OneSlot(s.procs, s.nextpid, me);
    ForkKeeps(s.procs, s.nextpid, me, i, child, work, s.nextpid);
    ForkRunning(s.procs, me, i, child, work);
    TableStep(s, AfterFork(s.procs, me, i, child, work), s.nextpid);
  }

  lemma ForkTakeStep(s: State, e: Event)
    requires Inv(s) && Enabled(s, e) && (e.ForkStack? || e.ForkCopy?)
    ensures Inv(Step(s, e))
  {
    hide CpusOk, TableOk, Ticks;
    var me, i := s.cpus[e.c].p, Child(s, e.c);
    OneCpu(s, e.c);
    OneSlot(s.procs, s.nextpid, me);
    OneSlot(s.procs, s.nextpid, i);
    var p := s.procs[i];
    match e
    case ForkStack(c, ok) =>
      ForkWork(s, c, if ok then p.(kstack := true) else p.(kstack := false, state := UNUSED),
               if ok then Forking(i, Stacked) else NoWork);
    case ForkCopy(c, ok) =>
      ForkWork(s, c, if ok then p.(pgdir := true) else p.(kstack := false, state := UNUSED),
               if ok then Forking(i, Copied) else NoWork);
  }

  lemma ForkGiveStep(s: State, e: Event)
    requires Inv(s) && Enabled(s, e) && (e.ForkAdopt? || e.ForkPublish?)
    ensures Inv(Step(s, e))
  {
    hide CpusOk, TableOk, Ticks;
    var me, i := s.cpus[e.c].p, Child(s, e.c);
    OneCpu(s, e.c);
    OneSlot(s.procs, s.nextpid, me);
    OneSlot(s.procs, s.nextpid, i);
    var p := s.procs[i];
    match e
    case ForkAdopt(c) => ForkWork(s, c, p.(parent := me), Forking(i, Adopted));
    case ForkPublish(c) => ForkWork(s, c, p.(state := RUNNABLE, resume := Start), NoWork);
  }

  /** Steps that change the table gently. */
  lemma GentleStep(s: State, qs: seq<Proc>)
    requires Inv(s) && GentleTable(s.procs, qs)
    requires forall j: nat {:trigger StaysOff(s.procs, qs, j)} :: j < |qs| ==>
      StaysOff(s.procs, qs, j) && qs[j].ticks == s.procs[j].ticks
    ensures Inv(s.(procs := qs))
  {
    hide CpusOk, TableOk, Ticks, Gentle;
    forall j: nat | j < |qs|
      ensures StaysOff(s.procs, qs, j) && qs[j].ticks == s.procs[j].ticks
      ensures (HasThread(s.procs[j]) ==> HasThread(qs[j]))
    {
      GentleThread(s.procs, j, qs[j]);
    }
    GentleKeeps(s.procs, qs, s.nextpid);
    TableStep(s, qs, s.nextpid);
  }

  lemma GentleThread(ps: seq<Proc>, j: nat, q: Proc)
    requires j < |ps| && Gentle(ps, j, q)
    ensures HasThread(ps[j]) ==> HasThread(q)
  {
  }

  lemma MarkerStep(s: State, e: Event)
    requires Inv(s) && Enabled(s, e) && (e.Fault? || e.Kill?)
    ensures Inv(Step(s, e))
  {
    hide CpusOk, TableOk, Ticks, HasKid, HasZombie;
    var qs := Step(s, e).procs;
    forall j: nat | j < |s.procs|
      ensures Gentle(s.procs, j, qs[j]) && StaysOff(s.procs, qs, j) && qs[j].ticks == s.procs[j].ticks
    {
      OneSlot(s.procs, s.nextpid, j);
      if e.Fault? {
        OneCpu(s, e.c);
      }
    }
    GentleStep(s, qs);
  }

  lemma SmallStep(s: State, e: Event)
    requires Inv(s) && Enabled(s, e) && (e.Wakeup? || e.Assign?)
    ensures Inv(Step(s, e))
  {
    hide CpusOk, TableOk, Ticks, HasKid, HasZombie;
    var qs := Step(s, e).procs;
    forall j: nat | j < |s.procs|
      ensures Gentle(s.procs, j, qs[j]) && StaysOff(s.procs, qs, j) && qs[j].ticks == s.procs[j].ticks
    {
      OneSlot(s.procs, s.nextpid, j);
    }
    GentleStep(s, qs);
  }

  lemma StepKeeps(s: State, e: Event)
    requires Inv(s) && Enabled(s, e)
    ensures Inv(Step(s, e))
  {
    hide Inv, Step, Enabled;
    match e
    case Acquire(_) => SchedulerStep(s, e);
    case Nothing(_) => SchedulerStep(s, e);
    case Switch(_) => SchedulerStep(s, e);
    case Release(_) => SchedulerStep(s, e);
    case Dispatch(_, _) => DispatchStep(s, e);
    case Continue(_) => ContinueStep(s, e);
    case Yield(_) => YieldStep(s, e);
    case Sleep(_, _) => YieldStep(s, e);
    case Exit(_) => ExitStep(s, e);
    case Wait(_) => WaitEvent(s, e);
    case ForkAlloc(_) => ForkAllocStep(s, e);
    case ForkStack(_, _) => ForkTakeStep(s, e);
    case ForkCopy(_, _) => ForkTakeStep(s, e);
    case ForkAdopt(_) => ForkGiveStep(s, e);
    case ForkPublish(_) => ForkGiveStep(s, e);
    case Fault(_) => MarkerStep(s, e);
    case Wakeup(_) => SmallStep(s, e);
    case Kill(_) => MarkerStep(s, e);
    case Assign(_, _) => SmallStep(s, e);
  }

  // ---- Every reachable state ----

  lemma {:induction false} NoTicks(ps: seq<Proc>, k: nat)
    requires k <= |ps| && forall i :: 0 <= i < k ==> ps[i].ticks == 0
    ensures TicksTo(ps, k) == 0
  {
    if k > 0 {
      NoTicks(ps, k - 1);
    }
  }

  lemma BootInv(ncpu: nat)
    ensures Inv(Boot(ncpu))
  {
    NoTicks(Boot(ncpu).procs, NPROC);
  }

  lemma {:induction false} EveryRunKeeps(r: Run)
    requires ValidRun(r)
    ensures Inv(Final(r))
  {
    hide Inv, Step, Enabled, Boot;
    match r
    case Start0(n) => BootInv(n);
    case Then(before, e) =>
      EveryRunKeeps(before);
      StepKeeps(Final(before), e);
  }

  /** With the lock free, a process is RUNNING exactly if some CPU has it as
      `c->proc`, and then only one has. */
  lemma CpuOwnership(r: Run, i: nat)
    requires ValidRun(r) && i < NPROC && Final(r).lock.Free?
    ensures |Final(r).procs| == NPROC
    ensures Final(r).procs[i].state == RUNNING <==>
            exists c: nat :: c < |Final(r).cpus| && HasProc(Final(r).cpus[c]) && Final(r).cpus[c].p == i
    ensures CpusDistinct(Final(r).cpus)
  {
    EveryRunKeeps(r);
    hide Final, ValidRun, TableOk;
    var s := Final(r);
    AllDistinct(s.procs, s.nextpid);
    forall c: nat | c < |s.cpus|
      ensures HasProc(s.cpus[c]) ==> s.cpus[c].Running? && s.cpus[c].p < NPROC && s.procs[s.cpus[c].p].state == RUNNING
    {
      assert CpuOk(s.procs, s.cpus, s.lock, c);
    }
    if s.procs[i].state == RUNNING {
      assert HasCpu(s.cpus, i);
      var c: nat :| RunsOn(s.cpus, c, i);
      assert HasProc(s.cpus[c]);
    }
  }

  /** No CPU ever stands on a stack that has been freed, whoever holds the lock. */
  lemma StacksInUse(r: Run, c: nat)
    requires ValidRun(r) && c < |Final(r).cpus| && OnStack(Final(r).cpus[c])
    ensures var s := Final(r); s.cpus[c].p < |s.procs| && s.procs[s.cpus[c].p].kstack
  {
    EveryRunKeeps(r);
    hide Final, ValidRun;
    var s := Final(r);
    OneCpu(s, c);
    OneSlot(s.procs, s.nextpid, s.cpus[c].p);
  }

  /** What can be switched to has a stack and a page table, and tickets. */
  lemma RunnableReady(r: Run, i: nat)
    requires ValidRun(r) && i < |Final(r).procs| && Alive(Final(r).procs[i])
    ensures var p := Final(r).procs[i]; p.kstack && p.pgdir && p.tickets >= 1
  {
    EveryRunKeeps(r);
    hide Final, ValidRun;
    OneSlot(Final(r).procs, Final(r).nextpid, i);
  }

  lemma PidsUnique(r: Run, i: nat, j: nat)
    requires ValidRun(r) && i < |Final(r).procs| && j < |Final(r).procs| && i != j
    requires Final(r).procs[i].state != UNUSED
    ensures Final(r).procs[i].pid != Final(r).procs[j].pid
  {
    EveryRunKeeps(r);
    hide Final, ValidRun;
    var s := Final(r);
    OneSlot(s.procs, s.nextpid, i);
  }

  /** Nobody sleeps in `wait` who is killed, has a zombie child or has no child. */
  lemma WaitersWait(r: Run, i: nat)
    requires ValidRun(r) && i < |Final(r).procs| && InWait(Final(r).procs[i])
    ensures var ps := Final(r).procs; !ps[i].killed && HasKid(ps, i) && !HasZombie(ps, i)
  {
    EveryRunKeeps(r);
    hide Final, ValidRun;
    OneSlot(Final(r).procs, Final(r).nextpid, i);
  }

  /** The ancestors of a process, from its parent on. */
  ghost function Ancestors(ps: seq<Proc>, i: nat): (a: seq<nat>)
    requires i < |ps| && forall j: nat :: j < |ps| ==> ParentOk(ps, j)
    decreases ps[i].pid
  {
    assert ParentOk(ps, i);
    if ps[i].parent == -1 then [] else [ps[i].parent] + Ancestors(ps, ps[i].parent)
  }

  /** The chain of parents of any process with a thread ends at init, and
      everybody on it is alive. */
  lemma {:induction false} ChainEnds(ps: seq<Proc>, nextpid: nat, i: nat)
    requires TableOk(ps, nextpid) && i < |ps| && HasThread(ps[i]) && i != INIT
    ensures forall j: nat :: j < |ps| ==> ParentOk(ps, j)
    ensures var a := Ancestors(ps, i);
            a != [] && a[|a| - 1] == INIT && forall k :: 0 <= k < |a| ==> a[k] < |ps| && Alive(ps[a[k]])
    decreases ps[i].pid
  {
    assert SlotOk(ps[i], i, nextpid) && ParentOk(ps, i);
    var q := ps[i].parent;
    assert Alive(ps[q]);
    if q == INIT {
      assert SlotOk(ps[INIT], INIT, nextpid);
      assert Ancestors(ps, q) == [];
    } else {
      ChainEnds(ps, nextpid, q);
    }
  }

  lemma EveryChainEnds(r: Run, i: nat)
    requires ValidRun(r) && i < |Final(r).procs| && HasThread(Final(r).procs[i]) && i != INIT
    ensures forall j: nat :: j < |Final(r).procs| ==> ParentOk(Final(r).procs, j)
    ensures var a := Ancestors(Final(r).procs, i); a != [] && a[|a| - 1] == INIT
  {
    EveryRunKeeps(r);
    hide Final, ValidRun, Ancestors;
    ChainEnds(Final(r).procs, Final(r).nextpid, i);
  }

  /** Each decision of a scheduler is a tick of a process in the table or of one
      that has been reaped. */
  lemma DecisionsAreTicks(r: Run)
    requires ValidRun(r)
    ensures Final(r).decisions == Ticks(Final(r).procs) + Final(r).reapedTicks
  {
    EveryRunKeeps(r);
  }

  /** `kill` reaches the process with the pid and no other one. */
  lemma KillHitsOnly(r: Run, pid: int, i: nat)
    requires ValidRun(r) && Enabled(Final(r), Kill(pid)) && i < |Final(r).procs| && Final(r).procs[i].state != UNUSED
    ensures var p := Final(r).procs[i];
            i < |Step(Final(r), Kill(pid)).procs| &&
            Step(Final(r), Kill(pid)).procs[i] ==
            if p.pid == pid then p.(killed := true, state := if p.state == SLEEPING then RUNNABLE else p.state) else p
  {
    EveryRunKeeps(r);
    hide Final, ValidRun;
    var s := Final(r);
    OneSlot(s.procs, s.nextpid, i);
    AllDistinct(s.procs, s.nextpid);
  }

  /** Init runs on the only CPU. */
  lemma InitRuns() returns (r: Run)
    ensures ValidRun(r) && Final(r).lock.Free? && Final(r).cpus == [Running(0)]
    ensures |Final(r).procs| == NPROC && Final(r).procs[1] == unused
    ensures var p := Final(r).procs[0]; p.state == RUNNING && p.pid == 1 && p.work.NoWork?
  {
    var r0 := Start0(1);
    var r1 := Then(r0, Acquire(0));
    var r2 := Then(r1, Dispatch(0, 0));
    r := Then(r2, Continue(0));
  }

  /** A process may be born killed: a free slot can be marked, for instance by
      `kill(0)`, and `allocproc` keeps the mark. */
  lemma BornKilled() returns (r: Run)
    ensures ValidRun(r) && r.Then? && r.e == ForkAlloc(0)
    ensures |Final(r.before).procs| == |Final(r).procs| == NPROC
    ensures Final(r.before).procs[1].state == UNUSED && Final(r).procs[1].state == EMBRYO && Final(r).procs[1].killed
  {
    var r3 := InitRuns();
    var s3 := Final(r3);
    var r4 := Then(r3, Kill(0));
    assert FindPid(s3.procs, 0, 0) == 1;
    var s4 := Final(r4);
    assert s4.procs[0] == s3.procs[0] && s4.procs[1] == Killed(unused) && s4.cpus == s3.cpus;
    assert FindUnused(s4.procs, 0) == 1;
    r := Then(r4, ForkAlloc(0));
  }

  // ---- Where the mark of a new process comes from ----

  ghost predicate KillHits(s: State, e: Event, i: nat)
  {
    e.Kill? && FindPid(s.procs, e.pid, 0) == i < |s.procs|
  }

  ghost predicate Reaps(s: State, e: Event, i: nat)
    requires Enabled(s, e)
  {
    i < |s.procs| == |Step(s, e).procs| && s.procs[i].state == ZOMBIE && Step(s, e).procs[i].state == UNUSED
  }

  /** What one step does to the mark of a slot without a thread, and that a slot
      loses its thread only by being reaped, which clears the mark. */
  ghost predicate MarkStep(s: State, e: Event, i: nat)
    requires Enabled(s, e)
  {
    && i < |s.procs| == |Step(s, e).procs|
    && (!HasThread(s.procs[i]) ==> Step(s, e).procs[i].killed == (s.procs[i].killed || KillHits(s, e, i)))
    && (HasThread(s.procs[i]) && !HasThread(Step(s, e).procs[i]) ==> Reaps(s, e, i) && !Step(s, e).procs[i].killed)
  }

  lemma MarkOfWait(s: State, c: nat, me: nat, i: nat)
    requires c < |s.cpus| && me < |s.procs| && HasProc(s.cpus[c]) && s.cpus[c].p == me && i < |s.procs|
    requires s.procs[me].state == RUNNING
    ensures |WaitStep(s, c, me).procs| == |s.procs|
    ensures var q := WaitStep(s, c, me).procs[i];
            if s.procs[i].state == ZOMBIE && q.state == UNUSED then !q.killed
            else q.killed == s.procs[i].killed && HasThread(q) == HasThread(s.procs[i])
  {
  }

  lemma MarkOfAlloc(s: State, e: Event, i: nat)
    requires Inv(s) && Enabled(s, e) && i < |s.procs| && e.ForkAlloc?
    ensures MarkStep(s, e, i)
  {
    hide TableOk, CpusOk, Ticks;
    OneCpu(s, e.c);
  }

  lemma MarkOfFork(s: State, e: Event, i: nat)
    requires Inv(s) && Enabled(s, e) && i < |s.procs|
    requires e.ForkStack? || e.ForkCopy? || e.ForkAdopt? || e.ForkPublish?
    ensures MarkStep(s, e, i)
  {
    hide TableOk, CpusOk, Ticks;
    OneCpu(s, e.c);
    OneSlot(s.procs, s.nextpid, s.cpus[e.c].p);
  }

  lemma MarkOfContinue(s: State, e: Event, i: nat)
    requires Inv(s) && Enabled(s, e) && e.Continue? && i < |s.procs|
    ensures MarkStep(s, e, i)
  {
    hide TableOk, CpusOk, Ticks;
    OneCpu(s, e.c);
    var me := s.cpus[e.c].p;
    var p := s.procs[me];
    if p.resume == FromWait {
      MarkOfWait(SetProc(s, me, p.(chan := NoChan, resume := Start)), e.c, me, i);
    }
  }

  lemma MarkOfExit(s: State, e: Event, i: nat)
    requires Inv(s) && Enabled(s, e) && (e.Exit? || e.Wait?) && i < |s.procs|
    ensures MarkStep(s, e, i)
  {
    hide TableOk, CpusOk, Ticks;
    OneCpu(s, e.c);
    if e.Exit? {
      ExitEntry(s.procs, s.cpus[e.c].p, i);
    } else {
      MarkOfWait(s, e.c, s.cpus[e.c].p, i);
    }
  }

  lemma MarkOfRest(s: State, e: Event, i: nat)
    requires Inv(s) && Enabled(s, e) && i < |s.procs|
    requires !e.ForkAlloc? && !e.ForkStack? && !e.ForkCopy? && !e.ForkAdopt? && !e.ForkPublish?
    requires !e.Continue? && !e.Exit? && !e.Wait?
    ensures MarkStep(s, e, i)
  {
    hide TableOk, CpusOk, Ticks;
    match e
    case Yield(c) => OneCpu(s, c);
    case Sleep(c, _) => OneCpu(s, c);
    case Fault(c) => OneCpu(s, c);
    case _ =>
  }

  lemma MarkOfStep(s: State, e: Event, i: nat)
    requires Inv(s) && Enabled(s, e) && i < |s.procs|
    ensures MarkStep(s, e, i)
  {
    hide TableOk, CpusOk, Ticks, MarkStep, Step, Inv;
    if e.ForkAlloc? {
      MarkOfAlloc(s, e, i);
    } else if e.ForkStack? || e.ForkCopy? || e.ForkAdopt? || e.ForkPublish? {
      MarkOfFork(s, e, i);
    } else if e.Continue? {
      MarkOfContinue(s, e, i);
    } else if e.Exit? || e.Wait? {
      MarkOfExit(s, e, i);
    } else {
      MarkOfRest(s, e, i);
    }
  }

  /** The last event of `p` is a `kill` that hits slot `i` while no thread is in it:
      by a pid that is left over in a free slot, or in the middle of a `fork`. */
  ghost predicate HitsFree(p: Run, i: nat)
  {
    && ValidRun(p) && p.Then? && i < |Final(p.before).procs|
    && KillHits(Final(p.before), p.e, i) && !HasThread(Final(p.before).procs[i])
  }

  /** `r` continues `p` without a reap of slot `i`. */
  ghost predicate Since(p: Run, r: Run, i: nat)
    requires ValidRun(r)
  {
    r == p || (r.Then? && !Reaps(Final(r.before), r.e, i) && Since(p, r.before, i))
  }

  ghost predicate HitSinceReap(r: Run, i: nat)
    requires ValidRun(r)
  {
    exists p :: HitsFree(p, i) && Since(p, r, i)
  }

  lemma HitNext(r: Run, i: nat)
    requires ValidRun(r) && r.Then? && i < |Final(r.before).procs| && !Reaps(Final(r.before), r.e, i)
    ensures HitSinceReap(r, i) <==> HitSinceReap(r.before, i) || HitsFree(r, i)
  {
    hide HitsFree, Reaps, Final;
    if HitSinceReap(r.before, i) {
      var p :| HitsFree(p, i) && Since(p, r.before, i);
      assert Since(p, r, i);
    }
    if HitsFree(r, i) {
      assert Since(r, r, i);
    }
    if HitSinceReap(r, i) {
      var p :| HitsFree(p, i) && Since(p, r, i);
      assert p == r || Since(p, r.before, i);
    }
  }

  /** In every run: a slot without a thread carries the mark if and only if, since
      it was last reaped or since boot, a `kill` hit it while it was free or in
      the making. */
  lemma {:induction false} FreeSlotMarkedIff(r: Run, i: nat)
    requires ValidRun(r) && i < NPROC
    ensures |Final(r).procs| == NPROC
    ensures !HasThread(Final(r).procs[i]) ==> (Final(r).procs[i].killed <==> HitSinceReap(r, i))
    decreases r
  {
    EveryRunKeeps(r);
    AllDistinct(Final(r).procs, Final(r).nextpid);
    match r
    case Start0(_) =>
    case Then(before, e) =>
      EveryRunKeeps(before);
      FreeSlotMarkedIff(before, i);
      MarkOfStep(Final(before), e, i);
      hide Inv, Step, Enabled, TableOk;
      if !HasThread(Final(before).procs[i]) {
        HitNext(r, i);
      } else if !HasThread(Final(r).procs[i]) {
        NoHitAfterReap(r, i);
      }
  }

  lemma NoHitAfterReap(r: Run, i: nat)
    requires ValidRun(r) && r.Then? && Reaps(Final(r.before), r.e, i)
    ensures !HitSinceReap(r, i)
  {
    hide Final;
    forall p | HitsFree(p, i)
      ensures !Since(p, r, i)
    {
    }
  }

  /** A process is born killed if and only if, since its slot was last reaped or
      since boot, a `kill` hit the slot while it was free or in the making. */
  lemma BornKilledIff(r: Run)
    requires ValidRun(r) && r.Then? && r.e.ForkPublish?
    ensures var s, t := Final(r.before), Final(r);
            RunsFreely(s, r.e.c) && s.procs[s.cpus[r.e.c].p].work.Forking? &&
            var i := Child(s, r.e.c);
            i < |s.procs| == |t.procs| && s.procs[i].state == EMBRYO && t.procs[i].state == RUNNABLE &&
            (t.procs[i].killed <==> HitSinceReap(r.before, i))
  {
    var s, c := Final(r.before), r.e.c;
    EveryRunKeeps(r.before);
    var i := Child(s, c);
    OneCpu(s, c);
    OneSlot(s.procs, s.nextpid, s.cpus[c].p);
    AllDistinct(s.procs, s.nextpid);
    hide Inv, TableOk, CpusOk, Ticks;
    FreeSlotMarkedIff(r.before, i);
  }
}
