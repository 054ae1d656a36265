/**
 A spin lock at the granularity of its memory accesses, used by any number of
 CPUs: `acquire` and `release` write the fields one after the other, and
 `holding` reads them one after the other without any lock.
 */
module SpinLock {

  /** Who calls `holding`: `acquire` and `release` do, for their checks. */
  datatype Call = ToAcquire | ToRelease | ToKnow

  /** Where a CPU is; `inside` says whether it held the lock when it made its call. */
  datatype Pc =
    | Outside
    | Inside                                            // acquire has returned
    | Asking(call: Call, inside: bool, locked: bool)    // holding has read lk->locked, not yet lk->cpu
    | Told(inside: bool, answer: bool)                  // holding has its result
    | Spinning(inside: bool)                            // in the xchg loop of acquire
    | Taken                                             // xchg returned 0, lk->cpu is not written yet
    | Clearing                                          // release has written lk->cpu, not yet lk->locked
    | Panicked(call: Call, inside: bool)

  /** The fields of the lock; `cpu` is -1 for a null pointer. */
  datatype State = State(locked: bool, cpu: int, pcs: seq<Pc>)

  datatype Event =
    | Ask(c: nat, call: Call) | Look(c: nat) | Return(c: nat)
    | Xchg(c: nat) | Record(c: nat) | Unlock(c: nat)

  predicate Enabled(s: State, e: Event)
  {
    e.c < |s.pcs| &&
    match e
    case Ask(c, _) => s.pcs[c].Outside? || s.pcs[c].Inside?
    case Look(c) => s.pcs[c].Asking?
    case Return(c) => s.pcs[c].Told?
    case Xchg(c) => s.pcs[c].Spinning?
    case Record(c) => s.pcs[c].Taken?
    case Unlock(c) => s.pcs[c].Clearing?
  }

  function Step(s: State, e: Event): (t: State)
    requires Enabled(s, e)
  {
    var pc := s.pcs[e.c];
    match e
    case Ask(c, call) => s.(pcs := s.pcs[c := Asking(call, pc.Inside?, s.locked)])
    case Look(c) =>
      var r := pc.locked && s.cpu == c;
      match pc.call {
        case ToKnow => s.(pcs := s.pcs[c := Told(pc.inside, r)])
        case ToAcquire => s.(pcs := s.pcs[c := if r then Panicked(ToAcquire, pc.inside) else Spinning(pc.inside)])
        case ToRelease =>
          if r then s.(cpu := -1, pcs := s.pcs[c := Clearing])
          else s.(pcs := s.pcs[c := Panicked(ToRelease, pc.inside)])
      }
    case Return(c) => s.(pcs := s.pcs[c := if pc.inside then Inside else Outside])
    case Xchg(c) => if s.locked then s else s.(locked := true, pcs := s.pcs[c := Taken])
    case Record(c) => s.(cpu := c, pcs := s.pcs[c := Inside])
    case Unlock(c) => s.(locked := false, pcs := s.pcs[c := Outside])
  }

  function Free(ncpu: nat): (s: State)
  {
    State(false, -1, seq(ncpu, _ => Outside))
  }

  datatype Run = Start(ncpu: nat) | Then(before: Run, e: Event)

  ghost predicate ValidRun(r: Run)
    decreases r, 0
  {
    match r
    case Start(_) => true
    case Then(before, e) => ValidRun(before) && Enabled(Final(before), e)
  }

  ghost function Final(r: Run): (s: State)
    requires ValidRun(r)
    decreases r, 1
  {
    match r
    case Start(n) => Free(n)
    case Then(before, e) => Step(Final(before), e)
  }

  // ---- What holds in every state ----

  /** The CPU has its name in the lock. */
  predicate Named(pc: Pc)
  {
    pc.Inside? || ((pc.Asking? || pc.Told? || pc.Panicked?) && pc.inside)
  }

  /** The CPU has gone through the xchg, and has not given the lock back. */
  predicate Holds(pc: Pc)
  {
    Named(pc) || pc.Taken? || pc.Clearing?
  }

  ghost predicate CpuOk(s: State, c: nat)
    requires c < |s.pcs|
  {
    var pc := s.pcs[c];
    && (Holds(pc) ==> s.locked)
    && (Named(pc) <==> s.cpu == c)
    && (pc.Told? ==> pc.answer == pc.inside)
    && (pc.Asking? && pc.inside ==> pc.locked)
    && (pc.Spinning? ==> !pc.inside)
    && (pc.Panicked? ==> pc.call == if pc.inside then ToAcquire else ToRelease)
  }

  ghost predicate Inv(s: State)
  {
    && (forall c: nat {:trigger CpuOk(s, c)} :: c < |s.pcs| ==> CpuOk(s, c))
    && (forall c, d :: 0 <= c < d < |s.pcs| ==> !(Holds(s.pcs[c]) && Holds(s.pcs[d])))
    && (s.locked ==> exists c :: 0 <= c < |s.pcs| && Holds(s.pcs[c]))
  }

  lemma HolderLocks(s: State)
    requires Inv(s)
    ensures forall c :: 0 <= c < |s.pcs| && Holds(s.pcs[c]) ==> s.locked
  {
    forall c: nat | c < |s.pcs| && Holds(s.pcs[c])
      ensures s.locked
    {
      assert CpuOk(s, c);
    }
  }

  lemma StepKeeps(s: State, e: Event)
    requires Inv(s) && Enabled(s, e)
    ensures Inv(Step(s, e))
  {
    var t := Step(s, e);
    HolderLocks(s);
    assert CpuOk(s, e.c);
    forall c: nat | c < |t.pcs|
      ensures CpuOk(t, c)
    {
      assert CpuOk(s, c) && CpuOk(s, e.c);
    }
    if t.locked {
      if s.locked {
        var c :| 0 <= c < |s.pcs| && Holds(s.pcs[c]);
        assert Holds(t.pcs[c]);
      } else {
        assert Holds(t.pcs[e.c]);
      }
    }
  }

  lemma {:induction false} EveryRunKeeps(r: Run)
    requires ValidRun(r)
    ensures Inv(Final(r))
  {
    if r.Then? {
      EveryRunKeeps(r.before);
      StepKeeps(Final(r.before), r.e);
    }
  }

  /** At most one CPU has the lock, also in the windows in which its fields
      disagree, and the lock is free exactly if no CPU has it. */
  lemma MutualExclusion(r: Run)
    requires ValidRun(r)
    ensures var s := Final(r);
            && (forall c, d :: 0 <= c < |s.pcs| && 0 <= d < |s.pcs| && Holds(s.pcs[c]) && Holds(s.pcs[d]) ==> c == d)
            && (s.locked <==> exists c :: 0 <= c < |s.pcs| && Holds(s.pcs[c]))
  {
    EveryRunKeeps(r);
    HolderLocks(Final(r));
  }

  /** `holding` tells the calling CPU the truth although it reads twice, and the
      checks of `acquire` and `release` stop exactly the wrong calls. */
  lemma HoldingExact(r: Run, c: nat)
    requires ValidRun(r) && c < |Final(r).pcs|
    ensures var pc := Final(r).pcs[c];
            && (pc.Told? ==> pc.answer == pc.inside)
            && (pc.Panicked? ==> pc.call == if pc.inside then ToAcquire else ToRelease)
            && (pc.Spinning? ==> !pc.inside)
  {
    EveryRunKeeps(r);
    assert CpuOk(Final(r), c);
  }

  lemma Extended(r: Run, e: Event) returns (t: Run)
    requires ValidRun(r) && Enabled(Final(r), e)
    ensures t == Then(r, e) && ValidRun(t) && Final(t) == Step(Final(r), e)
  {
    t := Then(r, e);
  }

  /** In every run, a CPU that calls `acquire` while nobody has the lock gets it,
      with its name in it, if no other CPU comes before it ... */
  lemma AcquireGets(r: Run, c: nat) returns (t: Run)
    requires ValidRun(r) && c < |Final(r).pcs| && Final(r).pcs[c].Outside? && !Final(r).locked
    ensures t == Then(Then(Then(Then(r, Ask(c, ToAcquire)), Look(c)), Xchg(c)), Record(c)) && ValidRun(t)
    ensures Final(t) == State(true, c, Final(r).pcs[c := Inside])
  {
    EveryRunKeeps(r);
    assert CpuOk(Final(r), c);
    hide Final, ValidRun, Inv;
    t := Extended(r, Ask(c, ToAcquire));
    t := Extended(t, Look(c));
    t := Extended(t, Xchg(c));
    t := Extended(t, Record(c));
  }

  /** ... and one that has it gives it back by `release`. */
  lemma ReleaseFrees(r: Run, c: nat) returns (t: Run)
    requires ValidRun(r) && c < |Final(r).pcs| && Final(r).pcs[c].Inside?
    ensures t == Then(Then(Then(r, Ask(c, ToRelease)), Look(c)), Unlock(c)) && ValidRun(t)
    ensures Final(t) == State(false, -1, Final(r).pcs[c := Outside])
  {
    EveryRunKeeps(r);
    assert CpuOk(Final(r), c);
    hide Final, ValidRun, Inv;
    t := Extended(r, Ask(c, ToRelease));
    t := Extended(t, Look(c));
    t := Extended(t, Unlock(c));
  }

  // ---- Interrupts ----

  /** The interrupt flag of a CPU, and its `ncli` and `intena`. */
  datatype Flags = Flags(on: bool, ncli: nat, intena: bool)

  function Push(f: Flags): (g: Flags)
  {
    Flags(false, f.ncli + 1, if f.ncli == 0 then f.on else f.intena)
  }

  predicate PopPanics(f: Flags)
  {
    f.on || f.ncli == 0
  }

  function Pop(f: Flags): (g: Flags)
    requires !PopPanics(f)
  {
    Flags(f.ncli == 1 && f.intena, f.ncli - 1, f.intena)
  }

  /** Calls of `pushcli` and `popcli` that match. */
  datatype Nest = Empty | Pair(inner: Nest, rest: Nest)

  datatype Outcome = Ok(f: Flags) | Panic

  function Do(n: Nest, f: Flags): (r: Outcome)
  {
    match n
    case Empty => Ok(f)
    case Pair(inner, rest) =>
      match Do(inner, Push(f))
      case Panic => Panic
      case Ok(g) => if PopPanics(g) then Panic else Do(rest, Pop(g))
  }

  /** Matched calls never panic. They leave the depth and the interrupt flag as
      they were. */
  lemma {:induction false} NestRestores(n: Nest, f: Flags)
    requires f.ncli > 0 ==> !f.on
    ensures Do(n, f).Ok? && Do(n, f).f.on == f.on && Do(n, f).f.ncli == f.ncli
    ensures f.ncli > 0 ==> Do(n, f).f == f
  {
    match n
    case Empty =>
    case Pair(inner, rest) =>
      NestRestores(inner, Push(f));
      assert Do(inner, Push(f)) == Ok(Push(f));
      NestRestores(rest, Pop(Push(f)));
  }

  /** The flags after each of the calls. */
  function Trace(n: Nest, f: Flags): (fs: seq<Flags>)
  {
    match n
    case Empty => []
    case Pair(inner, rest) =>
      [Push(f)] + Trace(inner, Push(f)) +
      match Do(inner, Push(f)) {
        case Panic => []
        case Ok(g) => if PopPanics(g) then [] else [Pop(g)] + Trace(rest, Pop(g))
      }
  }

  /** After every single call interrupts are off as long as any pair is open, and
      the depth never falls below what it was. */
  lemma {:induction false} OffWhileOpen(n: Nest, f: Flags, k: nat)
    requires (f.ncli > 0 ==> !f.on) && k < |Trace(n, f)|
    ensures Trace(n, f)[k].ncli >= f.ncli && (Trace(n, f)[k].ncli > 0 ==> !Trace(n, f)[k].on)
  {
    var Pair(inner, rest) := n;
    var first := Trace(inner, Push(f));
    NestRestores(inner, Push(f));
    var g := Pop(Push(f));
    assert Do(inner, Push(f)) == Ok(Push(f)) && Trace(n, f) == [Push(f)] + first + ([g] + Trace(rest, g));
    if 0 < k <= |first| {
      OffWhileOpen(inner, Push(f), k - 1);
    } else if k > |first| + 1 {
      OffWhileOpen(rest, g, k - |first| - 2);
    }
  }

  class Cpu {
    var flags: Flags

    constructor (on: bool)
      ensures flags == Flags(on, 0, false)
    {
      flags := Flags(on, 0, false);
    }

    method PushCli()
      modifies this
      ensures flags == Push(old(flags))
      ensures !flags.on && flags.ncli == old(flags).ncli + 1
      ensures flags.intena == if old(flags).ncli == 0 then old(flags).on else old(flags).intena
    {
      var eflags := flags.on;
      flags := flags.(on := false);
      if flags.ncli == 0 {
        flags := flags.(intena := eflags);
      }
      flags := flags.(ncli := flags.ncli + 1);
    }

    method PopCli() returns (panic: bool)
      modifies this
      ensures panic == PopPanics(old(flags))
      ensures !panic ==> flags == Pop(old(flags))
      ensures panic <==> old(flags).on || old(flags).ncli == 0
      ensures !panic ==> flags.ncli == old(flags).ncli - 1 && flags.intena == old(flags).intena
      ensures !panic ==> (flags.on <==> flags.ncli == 0 && flags.intena)
    {
      if flags.on || flags.ncli == 0 {
        return true;
      }
      flags := flags.(ncli := flags.ncli - 1);
      if flags.ncli == 0 && flags.intena {
        flags := flags.(on := true);
      }
      panic := false;
    }
  }
}
