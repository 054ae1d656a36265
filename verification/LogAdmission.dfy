/**
 Admission to the log: `begin_op`, `log_write`, `end_op` and the commit as
 steps of many processes. Each section under `log.lock` is one step; the guard
 of `log_write`, which is read without the lock, is a step of its own.
 */
module LogAdmission {
  import opened Params

  /** Where a process is. `left` is what remains of the operation's claim to
      write at most `MAXOPBLOCKS` new blocks. */
  datatype Phase =
    | Outside
    | Asleep                              // in begin_op, on the log's channel
    | InOp(left: nat)
    | Logging(left: nat, block: nat)      // in log_write, past the guard
    | Committing(cleared: bool)           // in end_op, past the last lock section

  datatype State = State(lh: seq<nat>, outstanding: nat, committing: bool, procs: seq<Phase>)

  // ---- Sums over the processes ----

  function Sum(ps: seq<Phase>, f: Phase -> nat): (s: nat)
  {
    if ps == [] then 0 else Sum(ps[..|ps| - 1], f) + f(ps[|ps| - 1])
  }

  lemma {:induction false} SumUpdate(ps: seq<Phase>, f: Phase -> nat, p: nat, x: Phase)
    requires p < |ps|
    ensures Sum(ps[p := x], f) + f(ps[p]) == Sum(ps, f) + f(x)
    ensures f(ps[p]) <= Sum(ps, f)
  {
    var n := |ps| - 1;
    if p == n {
      assert ps[p := x][..n] == ps[..n];
    } else {
      assert ps[p := x][..n] == ps[..n][p := x];
      SumUpdate(ps[..n], f, p, x);
    }
  }

  lemma {:induction false} SumAll(ps: seq<Phase>, ps': seq<Phase>, f: Phase -> nat)
    requires |ps| == |ps'| && forall i :: 0 <= i < |ps| ==> f(ps[i]) == f(ps'[i])
    ensures Sum(ps, f) == Sum(ps', f)
  {
    if ps != [] {
      SumAll(ps[..|ps| - 1], ps'[..|ps| - 1], f);
    }
  }

  const Claim: Phase -> nat := (x: Phase) => if x.InOp? || x.Logging? then x.left else 0
  const Active: Phase -> nat := (x: Phase) => if x.InOp? || x.Logging? then 1 else 0
  const Commits: Phase -> nat := (x: Phase) => if x.Committing? then 1 else 0

  // ---- The steps ----

  function Woken(ps: seq<Phase>): (r: seq<Phase>)
    ensures |r| == |ps|
  {
    seq(|ps|, i requires 0 <= i < |ps| => if ps[i].Asleep? then Outside else ps[i])
  }

  /** One turn of `begin_op`'s loop: a process that may not enter goes to sleep
      and starts over when woken. */
  ghost predicate BeginOp(s: State, t: State, p: nat)
  {
    && p < |s.procs| && s.procs[p].Outside?
    && if s.committing || |s.lh| + (s.outstanding + 1) * MAXOPBLOCKS > LOGSIZE
       then t == s.(procs := s.procs[p := Asleep])
       else t == s.(outstanding := s.outstanding + 1, procs := s.procs[p := InOp(MAXOPBLOCKS)])
  }

  /** The guard of `log_write`, which panics otherwise. */
  predicate GuardPasses(s: State, size: nat)
  {
    |s.lh| < LOGSIZE && |s.lh| + 1 < size && s.outstanding >= 1
  }

  ghost predicate LogGuard(s: State, t: State, size: nat, p: nat, block: nat)
  {
    && p < |s.procs| && s.procs[p].InOp?
    && GuardPasses(s, size)
    && t == s.(procs := s.procs[p := Logging(s.procs[p].left, block)])
  }

  /** The locked part of `log_write`: a block already listed is absorbed. An
      operation keeps its promise about the number of new blocks. */
  ghost predicate LogAppend(s: State, t: State, p: nat)
  {
    && p < |s.procs| && s.procs[p].Logging?
    && var Logging(left, block) := s.procs[p];
       if block in s.lh then t == s.(procs := s.procs[p := InOp(left)])
       else left > 0 && t == s.(lh := s.lh + [block], procs := s.procs[p := InOp(left - 1)])
  }

  /** The locked part of `end_op`. It panics if a commit is under way. */
  ghost predicate EndOp(s: State, t: State, p: nat)
  {
    && p < |s.procs| && s.procs[p].InOp? && s.outstanding > 0 && !s.committing
    && if s.outstanding == 1
       then t == s.(outstanding := 0, committing := true, procs := s.procs[p := Committing(false)])
       else t == s.(outstanding := s.outstanding - 1, procs := Woken(s.procs[p := Outside]))
  }

  /** The commit empties the in-memory header, without the lock ... */
  ghost predicate CommitClears(s: State, t: State, p: nat)
  {
    && p < |s.procs| && s.procs[p] == Committing(false)
    && t == s.(lh := [], procs := s.procs[p := Committing(true)])
  }

  /** ... and the end of `end_op` lets the sleepers try again. */
  ghost predicate CommitEnds(s: State, t: State, p: nat)
  {
    && p < |s.procs| && s.procs[p] == Committing(true)
    && t == s.(committing := false, procs := Woken(s.procs[p := Outside]))
  }

  ghost predicate Next(s: State, t: State, size: nat)
  {
    exists p: nat, block: nat :: NextBy(s, t, size, p, block)
  }

  ghost predicate NextBy(s: State, t: State, size: nat, p: nat, block: nat)
  {
    BeginOp(s, t, p) || LogGuard(s, t, size, p, block) || LogAppend(s, t, p) || EndOp(s, t, p) ||
    CommitClears(s, t, p) || CommitEnds(s, t, p)
  }

  ghost predicate Init(s: State)
  {
    s.lh == [] && s.outstanding == 0 && !s.committing && forall i :: 0 <= i < |s.procs| ==> s.procs[i].Outside?
  }

  // ---- What every step keeps ----

  /** A commit is under way, or one more operation might exceed the log. */
  predicate MustWait(s: State)
  {
    s.committing || |s.lh| + (s.outstanding + 1) * MAXOPBLOCKS > LOGSIZE
  }

  ghost predicate Inv(s: State)
  {
    // the log never holds more than was reserved
    && |s.lh| + Sum(s.procs, Claim) <= LOGSIZE
    && (forall i, j :: 0 <= i < j < |s.lh| ==> s.lh[i] != s.lh[j])
    // the counters count
    && s.outstanding == Sum(s.procs, Active)
    && Sum(s.procs, Commits) == (if s.committing then 1 else 0)
    // a commit runs alone, and leaves an empty log
    && (s.committing ==> s.outstanding == 0)
    && (!s.committing && s.outstanding == 0 ==> s.lh == [])
    && (forall i :: 0 <= i < |s.procs| && s.procs[i].Committing? ==>
          s.committing && (s.procs[i].cleared ==> s.lh == []))
    // operations keep within their claim
    && (forall i :: 0 <= i < |s.procs| && (s.procs[i].InOp? || s.procs[i].Logging?) ==> s.procs[i].left <= MAXOPBLOCKS)
    // nobody sleeps who could be admitted
    && (forall i :: 0 <= i < |s.procs| && s.procs[i].Asleep? ==> MustWait(s))
  }

  lemma {:induction false} SumZero(ps: seq<Phase>, f: Phase -> nat)
    requires forall i :: 0 <= i < |ps| ==> f(ps[i]) == 0
    ensures Sum(ps, f) == 0
  {
    if ps != [] {
      SumZero(ps[..|ps| - 1], f);
    }
  }

  lemma InitInv(s: State)
    requires Init(s)
    ensures Inv(s)
  {
    SumZero(s.procs, Claim);
    SumZero(s.procs, Active);
    SumZero(s.procs, Commits);
  }

  lemma SumsUpdate(ps: seq<Phase>, p: nat, x: Phase)
    requires p < |ps|
    ensures Sum(ps[p := x], Claim) == Sum(ps, Claim) + Claim(x) - Claim(ps[p])
    ensures Sum(ps[p := x], Active) == Sum(ps, Active) + Active(x) - Active(ps[p])
    ensures Sum(ps[p := x], Commits) == Sum(ps, Commits) + Commits(x) - Commits(ps[p])
    ensures Claim(ps[p]) <= Sum(ps, Claim) && Active(ps[p]) <= Sum(ps, Active) && Commits(ps[p]) <= Sum(ps, Commits)
  {
    SumUpdate(ps, Claim, p, x);
    SumUpdate(ps, Active, p, x);
    SumUpdate(ps, Commits, p, x);
  }

  lemma SumsWoken(ps: seq<Phase>)
    ensures Sum(Woken(ps), Claim) == Sum(ps, Claim)
    ensures Sum(Woken(ps), Active) == Sum(ps, Active)
    ensures Sum(Woken(ps), Commits) == Sum(ps, Commits)
  {
    SumAll(ps, Woken(ps), Claim);
    SumAll(ps, Woken(ps), Active);
    SumAll(ps, Woken(ps), Commits);
  }

  lemma {:induction false} ClaimsBounded(ps: seq<Phase>)
    requires forall i :: 0 <= i < |ps| && (ps[i].InOp? || ps[i].Logging?) ==> ps[i].left <= MAXOPBLOCKS
    ensures Sum(ps, Claim) <= Sum(ps, Active) * MAXOPBLOCKS
  {
    if ps != [] {
      ClaimsBounded(ps[..|ps| - 1]);
    }
  }

  /** Only one process commits at a time. */
  lemma OneCommits(ps: seq<Phase>, p: nat, q: nat)
    requires p < |ps| && q < |ps| && p != q && ps[p].Committing? && ps[q].Committing?
    ensures Sum(ps, Commits) >= 2
  {
    SumUpdate(ps, Commits, p, Outside);
    SumUpdate(ps[p := Outside], Commits, q, Outside);
  }

  lemma BeginOpKeeps(s: State, t: State, p: nat)
    requires Inv(s) && BeginOp(s, t, p)
    ensures Inv(t)
  {
    SumsUpdate(s.procs, p, t.procs[p]);
    ClaimsBounded(s.procs);
  }

  lemma LogGuardKeeps(s: State, t: State, size: nat, p: nat, block: nat)
    requires Inv(s) && LogGuard(s, t, size, p, block)
    ensures Inv(t)
  {
    SumsUpdate(s.procs, p, t.procs[p]);
  }

  lemma LogAppendKeeps(s: State, t: State, p: nat)
    requires Inv(s) && LogAppend(s, t, p)
    ensures Inv(t)
  {
    SumsUpdate(s.procs, p, t.procs[p]);
  }

  lemma EndOpKeeps(s: State, t: State, p: nat)
    requires Inv(s) && EndOp(s, t, p)
    ensures Inv(t)
  {
    if s.outstanding == 1 {
      SumsUpdate(s.procs, p, Committing(false));
    } else {
      SumsUpdate(s.procs, p, Outside);
      SumsWoken(s.procs[p := Outside]);
    }
  }

  lemma CommitClearsKeeps(s: State, t: State, p: nat)
    requires Inv(s) && CommitClears(s, t, p)
    ensures Inv(t)
  {
    SumsUpdate(s.procs, p, Committing(true));
  }

  lemma CommitEndsKeeps(s: State, t: State, p: nat)
    requires Inv(s) && CommitEnds(s, t, p)
    ensures Inv(t)
  {
    SumsUpdate(s.procs, p, Outside);
    SumsWoken(s.procs[p := Outside]);
    forall i | 0 <= i < |t.procs|
      ensures !t.procs[i].Committing?
    {
      if i != p && s.procs[i].Committing? {
        OneCommits(s.procs, p, i);
      }
    }
  }

  lemma NextKeeps(s: State, t: State, size: nat)
    requires Inv(s) && Next(s, t, size)
    ensures Inv(t)
  {
    var p: nat, block: nat :| NextBy(s, t, size, p, block);
    if BeginOp(s, t, p) {
      BeginOpKeeps(s, t, p);
    } else if LogGuard(s, t, size, p, block) {
      LogGuardKeeps(s, t, size, p, block);
    } else if LogAppend(s, t, p) {
      LogAppendKeeps(s, t, p);
    } else if EndOp(s, t, p) {
      EndOpKeeps(s, t, p);
    } else if CommitClears(s, t, p) {
      CommitClearsKeeps(s, t, p);
    } else {
      CommitEndsKeeps(s, t, p);
    }
  }

  ghost predicate IsRun(run: seq<State>, size: nat)
  {
    |run| > 0 && Init(run[0]) && forall i :: 0 <= i < |run| - 1 ==> Next(run[i], run[i + 1], size)
  }

  /** Over every interleaving: the log holds at most what was reserved, a commit
      runs with no operation in flight, the log is empty whenever nothing is
      going on, and every sleeper of `begin_op` has a waker. */
  lemma {:induction false} EveryRunKeeps(run: seq<State>, size: nat, k: nat)
    requires IsRun(run, size) && k < |run|
    ensures Inv(run[k])
  {
    if k == 0 {
      InitInv(run[0]);
    } else {
      EveryRunKeeps(run, size, k - 1);
      NextKeeps(run[k - 1], run[k], size);
    }
  }

  /** In every run, whoever sleeps in `begin_op` has to: there is a commit, or an
      operation whose end will wake the sleepers, and no room for another one. */
  lemma SleepersMustWait(run: seq<State>, size: nat, k: nat, p: nat)
    requires IsRun(run, size) && k < |run| && p < |run[k].procs| && run[k].procs[p].Asleep?
    ensures run[k].committing || (run[k].outstanding > 0 && |run[k].lh| + (run[k].outstanding + 1) * 10 > 30)
  {
    EveryRunKeeps(run, size, k);
  }

  // ---- Panics ----

  /** The panics of `end_op` and of `log_write` outside an operation cannot
      happen: whoever is in an operation finds it counted and no commit. */
  lemma InOpIsCounted(s: State, p: nat)
    requires Inv(s) && p < |s.procs| && (s.procs[p].InOp? || s.procs[p].Logging?)
    ensures s.outstanding >= 1 && !s.committing
  {
    SumsUpdate(s.procs, p, Outside);
  }

  /** Whatever block it is for, the guard passes if and only if there is room in
      the list and a slot besides the header: it does not ask whether the block
      is listed already. */
  lemma GuardPassesIff(s: State, size: nat, p: nat)
    requires Inv(s) && p < |s.procs| && s.procs[p].InOp?
    ensures GuardPasses(s, size) <==> |s.lh| < LOGSIZE && |s.lh| + 1 < size
  {
    InOpIsCounted(s, p);
  }

  /** A new block within an operation's claim passes the guard if and only if
      the listed blocks leave a slot besides the header. */
  lemma NewBlockPassesIff(s: State, size: nat, p: nat)
    requires Inv(s) && p < |s.procs| && s.procs[p].InOp? && s.procs[p].left > 0
    ensures GuardPasses(s, size) <==> |s.lh| + 1 < size
  {
    SumsUpdate(s.procs, p, Outside);
  }

  // ---- Reachable states ----

  ghost predicate Reachable(s: State, size: nat)
  {
    exists run :: IsRun(run, size) && run[|run| - 1] == s
  }

  /** No operation has listed more than `m` blocks. */
  ghost predicate Frugal(s: State, m: nat)
  {
    forall i :: 0 <= i < |s.procs| && (s.procs[i].InOp? || s.procs[i].Logging?) ==> s.procs[i].left + m >= MAXOPBLOCKS
  }

  ghost predicate FrugalRun(run: seq<State>, size: nat, m: nat)
  {
    IsRun(run, size) && forall i :: 0 <= i < |run| ==> Frugal(run[i], m)
  }

  ghost predicate FrugalReach(s: State, size: nat, m: nat)
  {
    exists run :: FrugalRun(run, size, m) && run[|run| - 1] == s
  }

  /** Every run is one in which operations list at most `MAXOPBLOCKS` blocks. */
  lemma AllAreFrugal(s: State, size: nat)
    ensures Reachable(s, size) <==> FrugalReach(s, size, MAXOPBLOCKS)
  {
    if Reachable(s, size) {
      var run :| IsRun(run, size) && run[|run| - 1] == s;
      assert FrugalRun(run, size, MAXOPBLOCKS);
    }
    if FrugalReach(s, size, MAXOPBLOCKS) {
      var run :| FrugalRun(run, size, MAXOPBLOCKS) && run[|run| - 1] == s;
    }
  }

  lemma FrugalNext(s: State, t: State, size: nat, m: nat, p: nat, block: nat)
    requires FrugalReach(s, size, m) && NextBy(s, t, size, p, block) && Frugal(t, m)
    ensures FrugalReach(t, size, m)
  {
    var run :| FrugalRun(run, size, m) && run[|run| - 1] == s;
    var longer := run + [t];
    forall i | 0 <= i < |longer| - 1
      ensures Next(longer[i], longer[i + 1], size)
    {
      if i == |run| - 1 {
        assert NextBy(longer[i], longer[i + 1], size, p, block);
      }
    }
    assert FrugalRun(longer, size, m);
  }

  lemma ReachNext(s: State, t: State, size: nat, p: nat, block: nat)
    requires Reachable(s, size) && NextBy(s, t, size, p, block)
    ensures Reachable(t, size)
  {
    AllAreFrugal(s, size);
    FrugalNext(s, t, size, MAXOPBLOCKS, p, block);
    AllAreFrugal(t, size);
  }

  function Range(k: nat): (r: seq<nat>)
  {
    seq(k, i requires 0 <= i < k => i)
  }

  lemma FrugalWrite(s: State, t: State, size: nat, m: nat, p: nat)
    requires FrugalReach(s, size, m) && p < |s.procs| && s.procs[p].InOp? && s.procs[p].left > 0
    requires s.lh == Range(|s.lh|) && GuardPasses(s, size) && Frugal(s, m) && Frugal(t, m)
    requires t == s.(lh := Range(|s.lh| + 1), procs := s.procs[p := InOp(s.procs[p].left - 1)])
    ensures FrugalReach(t, size, m)
  {
    hide FrugalReach;
    var block := |s.lh|;
    var mid := s.(procs := s.procs[p := Logging(s.procs[p].left, block)]);
    assert LogGuard(s, mid, size, p, block);
    FrugalNext(s, mid, size, m, p, block);
    assert mid.lh + [block] == Range(|s.lh| + 1) && block !in mid.lh;
    assert mid.procs[p := InOp(s.procs[p].left - 1)] == t.procs;
    assert LogAppend(mid, t, p);
    FrugalNext(mid, t, size, m, p, block);
  }

  lemma WriteOne(s: State, t: State, size: nat, p: nat)
    requires Reachable(s, size) && p < |s.procs| && s.procs[p].InOp? && s.procs[p].left > 0
    requires s.lh == Range(|s.lh|) && GuardPasses(s, size)
    requires t == s.(lh := Range(|s.lh| + 1), procs := s.procs[p := InOp(s.procs[p].left - 1)])
    ensures Reachable(t, size)
  {
    AllAreFrugal(s, size);
    FrugalWrite(s, t, size, MAXOPBLOCKS, p);
    AllAreFrugal(t, size);
  }

  /** Three operations that have written `a`, `b` and `c` blocks. */
  function Three(a: nat, b: nat, c: nat): (s: State)
    requires a <= MAXOPBLOCKS && b <= MAXOPBLOCKS && c <= MAXOPBLOCKS
  {
    State(Range(a + b + c), 3, false, [InOp(MAXOPBLOCKS - a), InOp(MAXOPBLOCKS - b), InOp(MAXOPBLOCKS - c)])
  }

  lemma ThreeBegin(size: nat)
    ensures Reachable(Three(0, 0, 0), size)
  {
    var s := State([], 0, false, [Outside, Outside, Outside]);
    assert IsRun([s], size) && [s][|[s]| - 1] == s;
    var op := InOp(MAXOPBLOCKS);
    var t1 := State([], 1, false, [op, Outside, Outside]);
    assert BeginOp(s, t1, 0);
    ReachNext(s, t1, size, 0, 0);
    var t2 := State([], 2, false, [op, op, Outside]);
    assert BeginOp(t1, t2, 1);
    ReachNext(t1, t2, size, 1, 0);
    assert BeginOp(t2, Three(0, 0, 0), 2);
    ReachNext(t2, Three(0, 0, 0), size, 2, 0);
  }

  lemma {:induction false} ThreeWrite(a: nat, b: nat, c: nat, size: nat)
    requires a <= MAXOPBLOCKS && b <= MAXOPBLOCKS && c <= MAXOPBLOCKS
    requires a + b + c == 0 || a + b + c < size
    ensures Reachable(Three(a, b, c), size)
    decreases a + b + c
  {
    hide Reachable;
    if c > 0 {
      ThreeWrite(a, b, c - 1, size);
      assert Three(a, b, c - 1).procs[2 := InOp(MAXOPBLOCKS - c)] == Three(a, b, c).procs;
      WriteOne(Three(a, b, c - 1), Three(a, b, c), size, 2);
    } else if b > 0 {
      ThreeWrite(a, b - 1, c, size);
      assert Three(a, b - 1, c).procs[1 := InOp(MAXOPBLOCKS - b)] == Three(a, b, c).procs;
      WriteOne(Three(a, b - 1, c), Three(a, b, c), size, 1);
    } else if a > 0 {
      ThreeWrite(a - 1, b, c, size);
      assert Three(a - 1, b, c).procs[0 := InOp(MAXOPBLOCKS - a)] == Three(a, b, c).procs;
      WriteOne(Three(a - 1, b, c), Three(a, b, c), size, 0);
    } else {
      ThreeBegin(size);
    }
  }

  /** The log that mkfs makes has `LOGSIZE` blocks, header included, and that is
      one short: three admitted operations, each within its claim of ten
      blocks, reach a state in which the thirtieth block panics. */
  lemma MkfsLogIsOneShort(s: State)
    requires s == Three(MAXOPBLOCKS, MAXOPBLOCKS, MAXOPBLOCKS - 1)
    ensures Reachable(s, LOGSIZE)
    ensures s.procs[2] == InOp(1) && !GuardPasses(s, LOGSIZE)
  {
    ThreeWrite(MAXOPBLOCKS, MAXOPBLOCKS, MAXOPBLOCKS - 1, LOGSIZE);
  }

  /** How three operations share `m` blocks so that two have blocks left. */
  function Spread(m: nat): (abc: (nat, nat, nat))
    requires m <= LOGSIZE - 2
    ensures abc.0 <= MAXOPBLOCKS && abc.1 < MAXOPBLOCKS && abc.2 < MAXOPBLOCKS && abc.0 + abc.1 + abc.2 == m
  {
    if m <= MAXOPBLOCKS then (m, 0, 0)
    else if m < 2 * MAXOPBLOCKS then (MAXOPBLOCKS, m - MAXOPBLOCKS, 0)
    else (MAXOPBLOCKS, MAXOPBLOCKS - 1, m + 1 - 2 * MAXOPBLOCKS)
  }

  /** The second and the third of three operations in `log_write`, past the guard. */
  function BothPast(a: nat, b: nat, c: nat): (s: State)
    requires a <= MAXOPBLOCKS && b < MAXOPBLOCKS && c < MAXOPBLOCKS
  {
    var n := a + b + c;
    State(Range(n), 3, false, [InOp(MAXOPBLOCKS - a), Logging(MAXOPBLOCKS - b, n), Logging(MAXOPBLOCKS - c, n + 1)])
  }

  lemma BothPass(size: nat, a: nat, b: nat, c: nat)
    requires a <= MAXOPBLOCKS && b < MAXOPBLOCKS && c < MAXOPBLOCKS && size == a + b + c + 2
    ensures Reachable(BothPast(a, b, c), size)
  {
    hide Reachable;
    ThreeWrite(a, b, c, size);
    var s, n := Three(a, b, c), a + b + c;
    var s1 := s.(procs := s.procs[1 := Logging(MAXOPBLOCKS - b, n)]);
    assert LogGuard(s, s1, size, 1, n);
    ReachNext(s, s1, size, 1, n);
    assert s1.procs[2 := Logging(MAXOPBLOCKS - c, n + 1)] == BothPast(a, b, c).procs;
    assert LogGuard(s1, BothPast(a, b, c), size, 2, n + 1);
    ReachNext(s1, BothPast(a, b, c), size, 2, n + 1);
  }

  /** The guard is read before the lock is taken. So two operations can both see
      the last slot free and both list a block: as many blocks are then listed
      as the log has blocks, one more than it has slots. */
  lemma Overrun(size: nat, a: nat, b: nat, c: nat)
    requires 2 <= size <= LOGSIZE && (a, b, c) == Spread(size - 2)
    ensures Reachable(Three(a, b + 1, c + 1), size) && |Three(a, b + 1, c + 1).lh| == size
  {
    hide Reachable, Spread;
    BothPass(size, a, b, c);
    var s, n, t := BothPast(a, b, c), a + b + c, Three(a, b + 1, c + 1);
    var s1 := s.(lh := Range(n + 1), procs := s.procs[1 := InOp(MAXOPBLOCKS - b - 1)]);
    assert s.lh + [n] == Range(n + 1) && n !in s.lh;
    assert LogAppend(s, s1, 1);
    ReachNext(s, s1, size, 1, n);
    assert s1.lh + [n + 1] == Range(n + 2) && n + 1 !in s1.lh;
    assert s1.procs[2 := InOp(MAXOPBLOCKS - c - 1)] == t.procs;
    assert LogAppend(s1, t, 2);
    ReachNext(s1, t, size, 2, n + 1);
  }

  /** With the log that mkfs makes: three operations, each within its claim, list
      thirty blocks for twenty-nine slots. */
  lemma MkfsLogOverruns()
    ensures Reachable(State(Range(LOGSIZE), 3, false, [InOp(0), InOp(0), InOp(0)]), LOGSIZE)
  {
    Overrun(LOGSIZE, MAXOPBLOCKS, MAXOPBLOCKS - 1, MAXOPBLOCKS - 1);
    assert Three(MAXOPBLOCKS, MAXOPBLOCKS, MAXOPBLOCKS).procs == [InOp(0), InOp(0), InOp(0)];
  }

  // ---- Over every run ----

  lemma ReachableInv(s: State, size: nat)
    requires Reachable(s, size)
    ensures Inv(s) && |s.lh| <= LOGSIZE
  {
    var run :| IsRun(run, size) && run[|run| - 1] == s;
    EveryRunKeeps(run, size, |run| - 1);
  }

  /** Process `p` is in an operation and its claim leaves it a new block. */
  ghost predicate HasNewBlock(s: State, p: nat)
  {
    p < |s.procs| && s.procs[p].InOp? && s.procs[p].left > 0
  }

  /** No new block within a claim panics, in any run, if and only if the log has
      more than `LOGSIZE` blocks. */
  lemma NewBlocksPassIff(size: nat)
    ensures (forall s, p: nat :: Reachable(s, size) && HasNewBlock(s, p) ==> GuardPasses(s, size)) <==> size > LOGSIZE
  {
    if size > LOGSIZE {
      forall s, p: nat | Reachable(s, size) && HasNewBlock(s, p)
        ensures GuardPasses(s, size)
      {
        ReachableInv(s, size);
        NewBlockPassesIff(s, size, p);
        SumsUpdate(s.procs, p, Outside);
      }
    } else {
      var m := if size == 0 then 0 else size - 1;
      var a := if m < MAXOPBLOCKS then m else MAXOPBLOCKS;
      var b := if m - a < MAXOPBLOCKS then m - a else MAXOPBLOCKS;
      ThreeWrite(a, b, m - a - b, size);
      assert HasNewBlock(Three(a, b, m - a - b), 2);
    }
  }

  // ---- Blocks that are logged again ----

  /** Process `p` may call `log_write` for `block`: it is listed already, which
      costs nothing, or the operation has listed fewer than `m` blocks. */
  ghost predicate MayLog(s: State, m: nat, p: nat, block: nat)
  {
    && p < |s.procs| && s.procs[p].InOp?
    && (block in s.lh || s.procs[p].left + m > MAXOPBLOCKS)
  }

  /** With a log of more than `LOGSIZE` blocks, the guard stops an operation within
      its claim exactly when the list is full. Then every claim is used up, and
      the block is one that is listed already. */
  lemma StoppedIff(s: State, size: nat, p: nat, block: nat)
    requires Reachable(s, size) && size > LOGSIZE && MayLog(s, MAXOPBLOCKS, p, block)
    ensures !GuardPasses(s, size) <==> |s.lh| == LOGSIZE
    ensures !GuardPasses(s, size) ==> s.procs[p].left == 0 && block in s.lh
  {
    ReachableInv(s, size);
    GuardPassesIff(s, size, p);
    SumsUpdate(s.procs, p, Outside);
  }

  /** That happens with every such log: three operations use up their claims, and
      the first of them logs its first block again. */
  lemma RelogPanics(size: nat)
    requires size > LOGSIZE
    ensures var s := Three(MAXOPBLOCKS, MAXOPBLOCKS, MAXOPBLOCKS);
            Reachable(s, size) && MayLog(s, MAXOPBLOCKS, 0, 0) && s.procs[0] == InOp(0) && !GuardPasses(s, size)
  {
    ThreeWrite(MAXOPBLOCKS, MAXOPBLOCKS, MAXOPBLOCKS, size);
    assert Three(MAXOPBLOCKS, MAXOPBLOCKS, MAXOPBLOCKS).lh[0] == 0;
  }

  // ---- Operations that list at most `m` blocks ----

  /** What an operation may still list. */
  function Allowance(m: nat): (f: Phase -> nat)
  {
    (x: Phase) => if (x.InOp? || x.Logging?) && x.left + m > MAXOPBLOCKS then x.left + m - MAXOPBLOCKS else 0
  }

  lemma {:induction false} AllowancesBounded(ps: seq<Phase>, m: nat)
    requires forall i :: 0 <= i < |ps| && (ps[i].InOp? || ps[i].Logging?) ==> ps[i].left <= MAXOPBLOCKS
    ensures Sum(ps, Allowance(m)) <= Sum(ps, Active) * m
  {
    if ps != [] {
      var n, x := |ps| - 1, ps[|ps| - 1];
      AllowancesBounded(ps[..n], m);
      var k := Sum(ps[..n], Active);
      assert Active(x) == 0 ==> Allowance(m)(x) == 0;
      assert Active(x) == 1 ==> Allowance(m)(x) <= m && (k + 1) * m == k * m + m;
    }
  }

  /** The blocks that are listed and those that may still be. */
  ghost function Demand(s: State, m: nat): (n: nat)
  {
    |s.lh| + Sum(s.procs, Allowance(m))
  }

  /** Listing a block uses up allowance, ending an operation gives it up, and
      `begin_op` admits a second operation only beside `MAXOPBLOCKS` listed blocks
      and a third only beside none. */
  lemma DemandStep(s: State, t: State, size: nat, m: nat)
    requires Inv(s) && Inv(t) && Next(s, t, size) && Frugal(s, m) && Frugal(t, m) && m <= MAXOPBLOCKS
    requires Demand(s, m) <= MAXOPBLOCKS + 2 * m && (m == 0 ==> s.lh == [])
    ensures Demand(t, m) <= MAXOPBLOCKS + 2 * m && (m == 0 ==> t.lh == [])
  {
    var p: nat, block: nat :| NextBy(s, t, size, p, block);
    if BeginOp(s, t, p) {
      BeginDemand(s, t, m, p);
    } else if EndOp(s, t, p) || CommitEnds(s, t, p) {
      LeaveDemand(s, t, m, p);
    } else {
      SumUpdate(s.procs, Allowance(m), p, t.procs[p]);
    }
  }

  lemma LeaveDemand(s: State, t: State, m: nat, p: nat)
    requires EndOp(s, t, p) || CommitEnds(s, t, p)
    ensures t.lh == s.lh && Demand(t, m) <= Demand(s, m)
  {
    var f := Allowance(m);
    SumUpdate(s.procs, f, p, Outside);
    SumUpdate(s.procs, f, p, Committing(false));
    SumAll(s.procs[p := Outside], Woken(s.procs[p := Outside]), f);
  }

  lemma BeginDemand(s: State, t: State, m: nat, p: nat)
    requires Inv(s) && Inv(t) && BeginOp(s, t, p) && m <= MAXOPBLOCKS && Demand(s, m) <= MAXOPBLOCKS + 2 * m
    ensures Demand(t, m) <= MAXOPBLOCKS + 2 * m
  {
    SumUpdate(s.procs, Allowance(m), p, t.procs[p]);
    if t.procs[p].InOp? {
      AllowancesBounded(t.procs, m);
      Admitted(|s.lh|, t.outstanding, m, Sum(t.procs, Allowance(m)));
    }
  }

  lemma Admitted(listed: nat, n: nat, m: nat, allowed: nat)
    requires listed + n * MAXOPBLOCKS <= LOGSIZE && (n <= 1 ==> listed == 0) && allowed <= n * m && m <= MAXOPBLOCKS
    ensures listed + allowed <= MAXOPBLOCKS + 2 * m
  {
    if n == 2 {
      assert allowed <= 2 * m;
    } else if n == 3 {
      assert allowed <= 3 * m;
    } else {
      assert n <= 1 && n * m <= m;
    }
  }

  lemma {:induction false} DemandAlways(run: seq<State>, size: nat, m: nat, k: nat)
    requires FrugalRun(run, size, m) && k < |run| && m <= MAXOPBLOCKS
    ensures Demand(run[k], m) <= MAXOPBLOCKS + 2 * m && (m == 0 ==> run[k].lh == [])
  {
    if k == 0 {
      SumZero(run[0].procs, Allowance(m));
    } else {
      DemandAlways(run, size, m, k - 1);
      EveryRunKeeps(run, size, k - 1);
      EveryRunKeeps(run, size, k);
      DemandStep(run[k - 1], run[k], size, m);
    }
  }

  /** One operation that has listed nothing, beside `n` listed blocks. */
  function Solo(n: nat): (s: State)
  {
    State(Range(n), 1, false, [InOp(MAXOPBLOCKS), Outside])
  }

  /** Two operations, of which the first has listed `a` and the second `b` blocks. */
  function Pair(n: nat, a: nat, b: nat): (s: State)
    requires a <= MAXOPBLOCKS && b <= MAXOPBLOCKS
  {
    State(Range(n), 2, false, [InOp(MAXOPBLOCKS - a), InOp(MAXOPBLOCKS - b)])
  }

  /** While the first operation waits, the second one lists a block, ends and
      begins again. */
  lemma {:induction false} SoloReach(n: nat, size: nat, m: nat)
    requires 1 <= m && n <= MAXOPBLOCKS && (n == 0 || n < size)
    ensures FrugalReach(Solo(n), size, m)
  {
    if n == 0 {
      var s := State([], 0, false, [Outside, Outside]);
      assert FrugalRun([s], size, m) && [s][|[s]| - 1] == s;
      assert BeginOp(s, Solo(0), 0);
      FrugalNext(s, Solo(0), size, m, 0, 0);
    } else {
      hide FrugalReach;
      SoloReach(n - 1, size, m);
      PairStart(n - 1, size, m);
      FrugalWrite(Pair(n - 1, 0, 0), Pair(n, 0, 1), size, m, 1);
      assert Woken(Pair(n, 0, 1).procs[1 := Outside]) == Solo(n).procs;
      assert EndOp(Pair(n, 0, 1), Solo(n), 1);
      FrugalNext(Pair(n, 0, 1), Solo(n), size, m, 1, 0);
    }
  }

  lemma PairStart(n: nat, size: nat, m: nat)
    requires n <= MAXOPBLOCKS && FrugalReach(Solo(n), size, m)
    ensures FrugalReach(Pair(n, 0, 0), size, m)
  {
    hide FrugalReach;
    assert BeginOp(Solo(n), Pair(n, 0, 0), 1);
    FrugalNext(Solo(n), Pair(n, 0, 0), size, m, 1, 0);
  }

  lemma {:induction false} PairReach(a: nat, b: nat, size: nat, m: nat)
    requires 1 <= m <= MAXOPBLOCKS && a <= m && b <= m && MAXOPBLOCKS + a + b < size
    ensures FrugalReach(Pair(MAXOPBLOCKS + a + b, a, b), size, m)
    decreases a + b
  {
    hide FrugalReach;
    var n := MAXOPBLOCKS + a + b;
    if b > 0 {
      PairReach(a, b - 1, size, m);
      FrugalWrite(Pair(n - 1, a, b - 1), Pair(n, a, b), size, m, 1);
    } else if a > 0 {
      PairReach(a - 1, b, size, m);
      FrugalWrite(Pair(n - 1, a - 1, b), Pair(n, a, b), size, m, 0);
    } else {
      SoloReach(MAXOPBLOCKS, size, m);
      PairStart(MAXOPBLOCKS, size, m);
    }
  }

  /** A run that gets stopped. */
  lemma StoppedRun(size: nat, m: nat) returns (s: State)
    requires 1 <= m <= MAXOPBLOCKS && (m == MAXOPBLOCKS || size <= MAXOPBLOCKS + 2 * m + 1)
    ensures FrugalReach(s, size, m) && MayLog(s, m, 0, 0) && !GuardPasses(s, size)
  {
    hide FrugalReach;
    var most := MAXOPBLOCKS + 2 * m;
    var k := if size == 0 then 0 else if size - 1 < most then size - 1 else most;
    if k <= MAXOPBLOCKS {
      s := Solo(k);
      SoloReach(k, size, m);
    } else {
      var a := if k - MAXOPBLOCKS < m then k - MAXOPBLOCKS else m;
      s := Pair(k, a, k - MAXOPBLOCKS - a);
      PairReach(a, k - MAXOPBLOCKS - a, size, m);
    }
    assert k > 0 ==> s.lh[0] == 0;
  }

  /** The guard stops nobody, in any run in which operations list at most `m`
      blocks each, if and only if they list none, or fewer than `MAXOPBLOCKS` each
      and the log has more than `MAXOPBLOCKS + 2 * m + 1` blocks. */
  lemma NobodyStoppedIff(size: nat, m: nat)
    requires m <= MAXOPBLOCKS
    ensures (forall s, p: nat, block: nat | FrugalReach(s, size, m) && MayLog(s, m, p, block) :: GuardPasses(s, size))
            <==> m == 0 || (m < MAXOPBLOCKS && size > MAXOPBLOCKS + 2 * m + 1)
  {
    if m == 0 || (m < MAXOPBLOCKS && size > MAXOPBLOCKS + 2 * m + 1) {
      forall s, p: nat, block: nat | FrugalReach(s, size, m) && MayLog(s, m, p, block)
        ensures GuardPasses(s, size)
      {
        var run :| FrugalRun(run, size, m) && run[|run| - 1] == s;
        DemandAlways(run, size, m, |run| - 1);
        EveryRunKeeps(run, size, |run| - 1);
        GuardPassesIff(s, size, p);
      }
    } else {
      var s := StoppedRun(size, m);
    }
  }

  /** So no size of the log keeps operations that use their whole claim from being
      stopped. */
  lemma EverySizeStops(size: nat)
    ensures exists s, p: nat, block: nat ::
              Reachable(s, size) && MayLog(s, MAXOPBLOCKS, p, block) && !GuardPasses(s, size)
  {
    var s := StoppedRun(size, MAXOPBLOCKS);
    AllAreFrugal(s, size);
  }

  /** The listed blocks fit the slots of the log, in every run, if and only if the
      log has more than `LOGSIZE` blocks, or nothing but its header. */
  lemma FitsIff(size: nat)
    ensures (forall s :: Reachable(s, size) ==> |s.lh| < size) <==> size > LOGSIZE || size == 1
  {
    if size > LOGSIZE {
      forall s | Reachable(s, size)
        ensures |s.lh| < size
      {
        ReachableInv(s, size);
      }
    } else if size == 1 {
      forall s | Reachable(s, size)
        ensures |s.lh| < size
      {
        var run :| IsRun(run, size) && run[|run| - 1] == s;
        OnlyHeader(run, |run| - 1);
      }
    } else if size == 0 {
      ThreeWrite(0, 0, 0, size);
    } else {
      var (a, b, c) := Spread(size - 2);
      Overrun(size, a, b, c);
    }
  }

  lemma {:induction false} OnlyHeader(run: seq<State>, k: nat)
    requires IsRun(run, 1) && k < |run|
    ensures run[k].lh == [] && forall i :: 0 <= i < |run[k].procs| ==> !run[k].procs[i].Logging?
  {
    if k > 0 {
      OnlyHeader(run, k - 1);
      assert Next(run[k - 1], run[k], 1);
      var p: nat, block: nat :| NextBy(run[k - 1], run[k], 1, p, block);
    }
  }

  /** The commit of the overrun: all three operations end, the last one commits
      with `LOGSIZE` listed blocks. */
  lemma FullCommit() returns (s: State)
    ensures Reachable(s, LOGSIZE) && s.committing && |s.lh| == LOGSIZE && |s.procs| == 3
    ensures s.procs[2] == Committing(false)
  {
    MkfsLogOverruns();
    var s0 := State(Range(LOGSIZE), 3, false, [InOp(0), InOp(0), InOp(0)]);
    var s1 := State(Range(LOGSIZE), 2, false, [Outside, InOp(0), InOp(0)]);
    assert Woken(s0.procs[0 := Outside]) == s1.procs;
    assert EndOp(s0, s1, 0);
    ReachNext(s0, s1, LOGSIZE, 0, 0);
    var s2 := State(Range(LOGSIZE), 1, false, [Outside, Outside, InOp(0)]);
    assert Woken(s1.procs[1 := Outside]) == s2.procs;
    assert EndOp(s1, s2, 1);
    ReachNext(s1, s2, LOGSIZE, 1, 0);
    s := State(Range(LOGSIZE), 0, true, [Outside, Outside, Committing(false)]);
    assert EndOp(s2, s, 2);
    ReachNext(s2, s, LOGSIZE, 2, 0);
  }

  /** Whatever the size of the log, a commit lists fewer blocks than there are
      buffers, in every run, if and only if there are more than `LOGSIZE`. */
  lemma BuffersSufficeIff(nbuf: nat)
    ensures (forall size: nat, s :: Reachable(s, size) && s.committing ==> |s.lh| < nbuf) <==> nbuf > LOGSIZE
  {
    if nbuf > LOGSIZE {
      forall size: nat, s | Reachable(s, size) && s.committing
        ensures |s.lh| < nbuf
      {
        ReachableInv(s, size);
      }
    } else {
      var s := FullCommit();
    }
  }
}
