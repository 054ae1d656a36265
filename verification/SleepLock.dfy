/**
 One sleep lock, used by any number of processes, step by step: the inner spin
 lock that guards its fields, `ptable.lock`, and the window in `sleep` in which
 the inner lock is already free and the process is not yet SLEEPING.
 */
module SleepLock {

  /** Where a process is. */
  datatype Pc =
    | Out                                   // does not have the sleep lock
    | Wanting                               // acquires the inner lock, in acquiresleep or at the end of sleep
    | Testing                               // inner lock; at the test of the loop
    | Setting                               // inner lock; found locked == 0
    | Took                                  // inner lock; has set locked and pid
    | Entering                              // inner lock; in sleep, acquires ptable.lock
    | Both                                  // both locks; about to release the inner one
    | Gap                                   // ptable.lock; not yet SLEEPING
    | Dozing                                // ptable.lock; SLEEPING, about to call sched
    | Asleep                                // switched out, SLEEPING
    | Awake                                 // switched out, RUNNABLE
    | Back                                  // ptable.lock; switched to again
    | Owner                                 // has the sleep lock
    | Leaving                               // in releasesleep, acquires the inner lock
    | Dropping                              // inner lock; about to clear locked
    | Dropped                               // inner lock; in wakeup, acquires ptable.lock
    | Waking                                // both locks; about to wake the sleepers
    | Woke                                  // both locks
    | Done                                  // inner lock; about to release it
    | Asking(owner: bool)                   // in holdingsleep, acquires the inner lock
    | Reading(owner: bool)                  // inner lock
    | Answered(owner: bool, answer: bool)   // inner lock; about to release it

  /** Who has `ptable.lock`: nobody, a process on its way through this lock, or
      anybody else (a scheduler, or code that has to do with something else). */
  datatype Table = Nobody | Process(p: nat) | Else

  /** `pid` names the process that set it, or is -1; `inner` is the process that
      has the inner lock, or -1. */
  datatype State = State(locked: bool, pid: int, inner: int, table: Table, pcs: seq<Pc>)

  datatype Event =
    | Want(p: nat) | Release(p: nat) | Ask(p: nat)
    | Lock(p: nat) | Unlock(p: nat) | LockTable(p: nat) | UnlockTable(p: nat)
    | Test(p: nat) | Set(p: nat) | Doze(p: nat) | Sched(p: nat) | Dispatch(p: nat)
    | Drop(p: nat) | Wakeup(p: nat) | Read(p: nat)
    | Kill(p: nat) | ElseLock | ElseUnlock

  predicate AtLock(pc: Pc)
  {
    pc.Wanting? || pc.Leaving? || pc.Asking?
  }

  predicate AtUnlock(pc: Pc)
  {
    pc.Both? || pc.Took? || pc.Done? || pc.Answered?
  }

  predicate Enabled(s: State, e: Event)
  {
    match e
    case ElseLock => s.table.Nobody?
    case ElseUnlock => s.table.Else?
    case Want(p) => p < |s.pcs| && s.pcs[p].Out?
    // Callers release only what they have; they check with holdingsleep.
    case Release(p) => p < |s.pcs| && s.pcs[p].Owner?
    case Ask(p) => p < |s.pcs| && (s.pcs[p].Out? || s.pcs[p].Owner?)
    case Lock(p) => p < |s.pcs| && AtLock(s.pcs[p]) && s.inner == -1
    case Unlock(p) => p < |s.pcs| && AtUnlock(s.pcs[p])
    case LockTable(p) => p < |s.pcs| && (s.pcs[p].Entering? || s.pcs[p].Dropped?) && s.table.Nobody?
    case UnlockTable(p) => p < |s.pcs| && (s.pcs[p].Back? || s.pcs[p].Woke?)
    case Test(p) => p < |s.pcs| && s.pcs[p].Testing?
    case Set(p) => p < |s.pcs| && s.pcs[p].Setting?
    case Doze(p) => p < |s.pcs| && s.pcs[p].Gap?
    case Sched(p) => p < |s.pcs| && s.pcs[p].Dozing?
    case Dispatch(p) => p < |s.pcs| && s.pcs[p].Awake? && s.table.Else?
    case Drop(p) => p < |s.pcs| && s.pcs[p].Dropping?
    case Wakeup(p) => p < |s.pcs| && s.pcs[p].Waking?
    case Read(p) => p < |s.pcs| && s.pcs[p].Reading?
    // kill may wake a sleeper that still has to wait.
    case Kill(p) => p < |s.pcs| && s.pcs[p].Asleep? && s.table.Nobody?
  }

  function Wake(pc: Pc): (q: Pc)
  {
    if pc.Asleep? then Awake else pc
  }

  function WakeAll(pcs: seq<Pc>): (qs: seq<Pc>)
    ensures |qs| == |pcs| && forall i :: 0 <= i < |pcs| ==> qs[i] == Wake(pcs[i])
  {
    seq(|pcs|, i requires 0 <= i < |pcs| => Wake(pcs[i]))
  }

  function Goto(s: State, p: nat, pc: Pc): (t: State)
    requires p < |s.pcs|
  {
    s.(pcs := s.pcs[p := pc])
  }

  function Step(s: State, e: Event): (t: State)
    requires Enabled(s, e)
  {
    match e
    case ElseLock => s.(table := Else)
    case ElseUnlock => s.(table := Nobody)
    case Want(p) => Goto(s, p, Wanting)
    case Release(p) => Goto(s, p, Leaving)
    case Ask(p) => Goto(s, p, Asking(s.pcs[p].Owner?))
    case Lock(p) =>
      var next := match s.pcs[p] { case Wanting => Testing case Leaving => Dropping case Asking(o) => Reading(o) };
      Goto(s, p, next).(inner := p)
    case Unlock(p) =>
      var next := match s.pcs[p] {
        case Both => Gap
        case Took => Owner
        case Done => Out
        case Answered(o, _) => if o then Owner else Out
      };
      Goto(s, p, next).(inner := -1)
    case LockTable(p) => Goto(s, p, if s.pcs[p].Entering? then Both else Waking).(table := Process(p))
    case UnlockTable(p) => Goto(s, p, if s.pcs[p].Back? then Wanting else Done).(table := Nobody)
    case Test(p) => Goto(s, p, if s.locked then Entering else Setting)
    case Set(p) => Goto(s, p, Took).(locked := true, pid := p)
    case Doze(p) => Goto(s, p, Dozing)
    case Sched(p) => Goto(s, p, Asleep).(table := Else)
    case Dispatch(p) => Goto(s, p, Back).(table := Process(p))
    case Drop(p) => Goto(s, p, Dropped).(locked := false, pid := -1)
    case Wakeup(p) => s.(pcs := WakeAll(s.pcs)[p := Woke])
    case Read(p) => Goto(s, p, Answered(s.pcs[p].owner, s.locked && s.pid == p))
    case Kill(p) => Goto(s, p, Awake)
  }

  function Initial(n: nat): (s: State)
  {
    State(false, -1, -1, Nobody, seq(n, _ => Out))
  }

  datatype Run = Start(n: nat) | Then(before: Run, e: Event)

  ghost predicate ValidRun(r: Run)
    decreases r, 0
  {
    match r
    case Start(_) => true
    case Then(before, e) => ValidRun(before) && Enabled(Final(before), e)
  }

  ghost function Final(r: Run): (s: State)
    requires ValidRun(r)
    decreases r, 1
  {
    match r
    case Start(n) => Initial(n)
    case Then(before, e) => Step(Final(before), e)
  }

  // ---- What holds in every state ----

  predicate HasInner(pc: Pc)
  {
    pc.Testing? || pc.Setting? || pc.Took? || pc.Entering? || pc.Both? || pc.Dropping? || pc.Dropped? || pc.Waking? ||
    pc.Woke? || pc.Done? || pc.Reading? || pc.Answered?
  }

  predicate HasTable(pc: Pc)
  {
    pc.Both? || pc.Gap? || pc.Dozing? || pc.Back? || pc.Waking? || pc.Woke?
  }

  predicate Owns(pc: Pc)
  {
    pc.Took? || pc.Owner? || pc.Leaving? || pc.Dropping? || ((pc.Asking? || pc.Reading? || pc.Answered?) && pc.owner)
  }

  /** On its way to sleep, with the inner lock given up, or asleep. */
  predicate Sleeps(pc: Pc)
  {
    pc.Gap? || pc.Dozing? || pc.Asleep?
  }

  /** Somebody who has released the sleep lock is still to wake the sleepers. */
  predicate WillWake(s: State)
  {
    0 <= s.inner < |s.pcs| && (s.pcs[s.inner].Dropped? || s.pcs[s.inner].Waking?)
  }

  ghost predicate ProcOk(s: State, p: nat)
    requires p < |s.pcs|
  {
    var pc := s.pcs[p];
    && (HasInner(pc) <==> s.inner == p)
    && (HasTable(pc) <==> s.table == Process(p))
    && (Owns(pc) <==> s.pid == p)
    && (pc.Entering? || pc.Both? ==> s.locked)
    && (pc.Setting? ==> !s.locked)
    && (Sleeps(pc) ==> s.locked || WillWake(s))
    && (pc.Answered? ==> pc.answer == pc.owner)
  }

  ghost predicate Inv(s: State)
  {
    && -1 <= s.pid < |s.pcs| && (s.locked <==> s.pid != -1)
    && -1 <= s.inner < |s.pcs|
    && (forall p: nat {:trigger ProcOk(s, p)} :: p < |s.pcs| ==> ProcOk(s, p))
  }

  lemma StepKeeps(s: State, e: Event)
    requires Inv(s) && Enabled(s, e)
    ensures Inv(Step(s, e))
  {
    var t := Step(s, e);
    forall q: nat | q < |t.pcs|
      ensures ProcOk(t, q)
    {
      OneStep(s, e, q);
    }
    if !e.ElseLock? && !e.ElseUnlock? {
      assert ProcOk(s, e.p);
    }
  }

  lemma OneStep(s: State, e: Event, q: nat)
    requires Inv(s) && Enabled(s, e) && q < |s.pcs|
    ensures |Step(s, e).pcs| == |s.pcs| && ProcOk(Step(s, e), q)
  {
    if e.ElseLock? || e.ElseUnlock? {
      assert ProcOk(s, q);
    } else if e.Want? || e.Release? || e.Ask? {
      CallStep(s, e, q);
    } else if e.Test? || e.Read? || e.Kill? {
      LookStep(s, e, q);
    } else if e.Lock? || e.Unlock? {
      InnerStep(s, e, q);
    } else if e.LockTable? || e.UnlockTable? {
      TableStep(s, e, q);
    } else if e.Doze? || e.Sched? || e.Dispatch? {
      SwitchStep(s, e, q);
    } else {
      FieldStep(s, e, q);
    }
  }

  lemma CallStep(s: State, e: Event, q: nat)
    requires Inv(s) && Enabled(s, e) && q < |s.pcs|
    requires e.Want? || e.Release? || e.Ask?
    ensures |Step(s, e).pcs| == |s.pcs| && ProcOk(Step(s, e), q)
  {
    assert ProcOk(s, q) && ProcOk(s, e.p);
    if s.inner != -1 {
      assert ProcOk(s, s.inner);
    }
  }

  lemma LookStep(s: State, e: Event, q: nat)
    requires Inv(s) && Enabled(s, e) && q < |s.pcs|
    requires e.Test? || e.Read? || e.Kill?
    ensures |Step(s, e).pcs| == |s.pcs| && ProcOk(Step(s, e), q)
  {
    assert ProcOk(s, q) && ProcOk(s, e.p);
    if s.inner != -1 {
      assert ProcOk(s, s.inner);
    }
  }

  lemma InnerStep(s: State, e: Event, q: nat)
    requires Inv(s) && Enabled(s, e) && q < |s.pcs|
    requires e.Lock? || e.Unlock?
    ensures |Step(s, e).pcs| == |s.pcs| && ProcOk(Step(s, e), q)
  {
    assert ProcOk(s, q) && ProcOk(s, e.p);
    if s.inner != -1 {
      assert ProcOk(s, s.inner);
    }
  }

  lemma TableStep(s: State, e: Event, q: nat)
    requires Inv(s) && Enabled(s, e) && q < |s.pcs|
    requires e.LockTable? || e.UnlockTable?
    ensures |Step(s, e).pcs| == |s.pcs| && ProcOk(Step(s, e), q)
  {
    assert ProcOk(s, q) && ProcOk(s, e.p);
    if s.inner != -1 {
      assert ProcOk(s, s.inner);
    }
  }

  lemma SwitchStep(s: State, e: Event, q: nat)
    requires Inv(s) && Enabled(s, e) && q < |s.pcs|
    requires e.Doze? || e.Sched? || e.Dispatch?
    ensures |Step(s, e).pcs| == |s.pcs| && ProcOk(Step(s, e), q)
  {
    assert ProcOk(s, q) && ProcOk(s, e.p);
    if s.inner != -1 {
      assert ProcOk(s, s.inner);
    }
  }

  lemma FieldStep(s: State, e: Event, q: nat)
    requires Inv(s) && Enabled(s, e) && q < |s.pcs|
    requires e.Set? || e.Drop? || e.Wakeup?
    ensures |Step(s, e).pcs| == |s.pcs| && ProcOk(Step(s, e), q)
  {
    assert ProcOk(s, q) && ProcOk(s, e.p);
    if s.inner != -1 {
      assert ProcOk(s, s.inner);
    }
  }

  lemma {:induction false} EveryRunKeeps(r: Run)
    requires ValidRun(r)
    ensures Inv(Final(r))
  {
    if r.Then? {
      EveryRunKeeps(r.before);
      StepKeeps(Final(r.before), r.e);
    }
  }

  /** At most one process has the sleep lock, and `locked` and `pid` say who. */
  lemma MutualExclusion(r: Run, p: nat)
    requires ValidRun(r) && p < |Final(r).pcs|
    ensures var s := Final(r); Owns(s.pcs[p]) <==> s.locked && s.pid == p
    ensures forall q: nat :: q < |Final(r).pcs| && Owns(Final(r).pcs[p]) && Owns(Final(r).pcs[q]) ==> p == q
  {
    EveryRunKeeps(r);
    var s := Final(r);
    assert ProcOk(s, p);
    forall q: nat | q < |s.pcs| && Owns(s.pcs[p]) && Owns(s.pcs[q])
      ensures p == q
    {
      assert ProcOk(s, q);
    }
  }

  /** No wakeup is lost: when the inner lock is free and the sleep lock is not
      taken, nobody sleeps on it or is about to. */
  lemma NoLostWakeup(r: Run, p: nat)
    requires ValidRun(r) && p < |Final(r).pcs| && Final(r).inner == -1 && !Final(r).locked
    ensures !Sleeps(Final(r).pcs[p])
  {
    EveryRunKeeps(r);
    assert ProcOk(Final(r), p);
  }

  /** Whoever sleeps has somebody to wake it: the owner of the sleep lock, or a
      process on its way through `wakeup`. */
  lemma SleeperHasWaker(r: Run, p: nat)
    requires ValidRun(r) && p < |Final(r).pcs| && Sleeps(Final(r).pcs[p])
    ensures exists q: nat ::
      q < |Final(r).pcs| && (Owns(Final(r).pcs[q]) || Final(r).pcs[q].Dropped? || Final(r).pcs[q].Waking?)
  {
    EveryRunKeeps(r);
    var s := Final(r);
    assert ProcOk(s, p);
    if s.locked {
      assert ProcOk(s, s.pid);
    }
  }

  lemma HoldingSleepExact(r: Run, p: nat)
    requires ValidRun(r) && p < |Final(r).pcs| && Final(r).pcs[p].Answered?
    ensures Final(r).pcs[p].answer <==> Owns(Final(r).pcs[p])
  {
    EveryRunKeeps(r);
    assert ProcOk(Final(r), p);
  }

  lemma Extended(r: Run, e: Event) returns (t: Run)
    requires ValidRun(r) && Enabled(Final(r), e)
    ensures t == Then(r, e) && ValidRun(t) && Final(t) == Step(Final(r), e)
  {
    t := Then(r, e);
  }

  /** In every run, a process that wants the sleep lock while nobody has it gets it,
      if the inner lock is free and nobody comes before it ... */
  lemma AcquireGets(r: Run, p: nat) returns (t: Run)
    requires ValidRun(r) && p < |Final(r).pcs| && Final(r).pcs[p].Out? && !Final(r).locked && Final(r).inner == -1
    ensures t == Then(Then(Then(Then(Then(r, Want(p)), Lock(p)), Test(p)), Set(p)), Unlock(p)) && ValidRun(t)
    ensures Final(t) == Final(r).(locked := true, pid := p, pcs := Final(r).pcs[p := Owner])
  {
    hide Final, ValidRun;
    t := Extended(r, Want(p));
    t := Extended(t, Lock(p));
    t := Extended(t, Test(p));
    t := Extended(t, Set(p));
    t := Extended(t, Unlock(p));
  }

  /** ... and one that has it gives it back, and wakes all who sleep on it. */
  lemma ReleaseWakes(r: Run, p: nat) returns (t: Run)
    requires ValidRun(r) && p < |Final(r).pcs| && Final(r).pcs[p].Owner?
    requires Final(r).inner == -1 && Final(r).table.Nobody?
    ensures ValidRun(t) && |Final(t).pcs| == |Final(r).pcs| && !Final(t).locked && Final(t).pid == -1
    ensures Final(t).inner == -1 && Final(t).table.Nobody? && Final(t).pcs[p].Out?
    ensures forall q :: 0 <= q < |Final(t).pcs| && q != p ==>
              Final(t).pcs[q] == if Final(r).pcs[q].Asleep? then Awake else Final(r).pcs[q]
  {
    hide Final, ValidRun;
    t := Extended(r, Release(p));
    t := Extended(t, Lock(p));
    t := Extended(t, Drop(p));
    t := Extended(t, LockTable(p));
    t := Extended(t, Wakeup(p));
    t := Extended(t, UnlockTable(p));
    t := Extended(t, Unlock(p));
  }
}
