/**
 Fairness of the lottery over one cycle of the seed counter. The seeds of any
 65535 consecutive calls are the numbers 1..65535, the register permutes them,
 and so the draws are the residues of 1..65535: almost equally many of each.
 */
module Fairness {
  import opened Counting
  import opened Bits
  import opened Lfsr
  import opened Lottery
  import opened Params
  import opened Procs

  /** The length of the seed cycle. */
  const CYCLE: nat := 65535

  // ---- Counting ----

  lemma MulMonotone(a: int, b: int, m: nat)
    requires a <= b
    ensures a * m <= b * m
  {
    assert b * m == a * m + (b - a) * m;
  }

  /** The words whose residue lies in a range. */
  ghost function WordsIn(limit: nat, lo: nat, hi: nat): (ws: set<nat>)
    requires limit > 0
  {
    set w: nat | 1 <= w <= CYCLE && lo <= w % limit < hi
  }

  /** How many of 1..65535 have residue `t`. */
  function ResidueCount(limit: nat, t: nat): (c: nat)
    requires 0 < limit <= CYCLE && t < limit
  {
    (CYCLE - FirstWord(limit, t)) / limit + 1
  }

  function FirstWord(limit: nat, t: nat): (w: nat)
    requires 0 < limit <= CYCLE && t < limit
    ensures 1 <= w <= limit
  {
    if t == 0 then limit else t
  }

  lemma ResidueCountBounds(limit: nat, t: nat)
    requires 0 < limit <= CYCLE && t < limit
    ensures CYCLE / limit <= ResidueCount(limit, t) <= CYCLE / limit + 1
  {
    var first := FirstWord(limit, t);
    var q, r := CYCLE / limit, CYCLE % limit;
    assert CYCLE == q * limit + r;
    if first <= r {
      MulMod(q, r - first, limit);
    } else {
      assert CYCLE - first == (q - 1) * limit + (limit + r - first);
      MulMod(q - 1, limit + r - first, limit);
    }
  }

  lemma ResidueSize(limit: nat, t: nat)
    requires 0 < limit <= CYCLE && t < limit
    ensures |WordsIn(limit, t, t + 1)| == ResidueCount(limit, t)
  {
    var js := Below(ResidueCount(limit, t));
    var ws := WordsIn(limit, t, t + 1);
    forall j | j in js
      ensures WordOf(limit, t, j) in ws && IndexOf(limit, t, WordOf(limit, t, j)) == j
    {
      ProgressionForward(limit, t, j);
    }
    forall w | w in ws
      ensures IndexOf(limit, t, w) in js && WordOf(limit, t, IndexOf(limit, t, w)) == w
    {
      ProgressionBackward(limit, t, w);
    }
    BijectionSize(js, ws, (j: nat) => WordOf(limit, t, j), (w: nat) => IndexOf(limit, t, w));
  }

  /** The `j`-th word with residue `t`, and back. */
  function WordOf(limit: nat, t: nat, j: nat): (w: nat)
    requires 0 < limit <= CYCLE && t < limit
  {
    j * limit + FirstWord(limit, t)
  }

  function IndexOf(limit: nat, t: nat, w: nat): (j: nat)
    requires 0 < limit <= CYCLE && t < limit
  {
    if w < FirstWord(limit, t) then 0 else (w - FirstWord(limit, t)) / limit
  }

  lemma ProgressionForward(limit: nat, t: nat, j: nat)
    requires 0 < limit <= CYCLE && t < limit && j < ResidueCount(limit, t)
    ensures var w := WordOf(limit, t, j);
            1 <= w <= CYCLE && w % limit == t && IndexOf(limit, t, w) == j
  {
    var first := FirstWord(limit, t);
    var last := (CYCLE - first) / limit;
    MulMonotone(j, last, limit);
    MulMonotone(0, j, limit);
    assert last * limit <= CYCLE - first;
    MulMod(j, 0, limit);
    if t == 0 {
      assert j * limit + limit == (j + 1) * limit + 0;
      MulMod(j + 1, 0, limit);
    } else {
      MulMod(j, t, limit);
    }
  }

  lemma ProgressionBackward(limit: nat, t: nat, w: nat)
    requires 0 < limit <= CYCLE && t < limit && 1 <= w <= CYCLE && w % limit == t
    ensures IndexOf(limit, t, w) < ResidueCount(limit, t)
    ensures WordOf(limit, t, IndexOf(limit, t, w)) == w
  {
    var first := FirstWord(limit, t);
    var q := w / limit;
    assert w == q * limit + t;
    if t == 0 {
      assert q >= 1 by {
        assert q <= 0 ==> q * limit <= 0;
      }
      assert w - first == (q - 1) * limit;
      MulMod(q - 1, 0, limit);
      assert (q - 1) * limit >= 0;
    } else {
      MulMod(q, 0, limit);
      assert q * limit >= 0;
    }
    var n := (w - first) / limit;
    DivMonotone(w - first, CYCLE - first, limit);
  }

  lemma DivMonotone(a: nat, b: nat, m: nat)
    requires a <= b && m > 0
    ensures a / m <= b / m
  {
    var d := a / m - b / m;
    assert a == a / m * m + a % m && b == b / m * m + b % m;
    assert d * m == (a - a % m) - (b - b % m);
    assert d >= 1 ==> d * m >= 1 * m;
  }

  /** A range of residues is hit close to `CYCLE / limit` times per residue. */
  lemma {:induction false} RangeCount(limit: nat, lo: nat, hi: nat)
    requires 0 < limit <= CYCLE && lo <= hi <= limit
    ensures (hi - lo) * (CYCLE / limit) <= |WordsIn(limit, lo, hi)| <= (hi - lo) * (CYCLE / limit + 1)
    decreases hi
  {
    var q := CYCLE / limit;
    if lo == hi {
      assert WordsIn(limit, lo, hi) == {};
    } else {
      RangeCount(limit, lo, hi - 1);
      ResidueSize(limit, hi - 1);
      ResidueCountBounds(limit, hi - 1);
      WordsSplit(limit, lo, hi);
      assert (hi - lo) * q == (hi - 1 - lo) * q + q;
      assert (hi - lo) * (q + 1) == (hi - 1 - lo) * (q + 1) + (q + 1);
    }
  }

  lemma WordsSplit(limit: nat, lo: nat, hi: nat)
    requires 0 < limit && lo < hi
    ensures |WordsIn(limit, lo, hi)| == |WordsIn(limit, lo, hi - 1)| + |WordsIn(limit, hi - 1, hi)|
  {
    assert WordsIn(limit, lo, hi) == WordsIn(limit, lo, hi - 1) + WordsIn(limit, hi - 1, hi);
    assert WordsIn(limit, lo, hi - 1) !! WordsIn(limit, hi - 1, hi);
  }

  // ---- One cycle of calls ----

  /** The register at the end of the `k`-th call. */
  function WordAt(state: nat, limit: nat, k: nat): (w: nat)
  {
    Steps(limit, Seed(StateAt(state, k)))
  }

  /** The call of the cycle that leaves `w` in the register. */
  function CallOf(state: nat, limit: nat, w: nat): (k: nat)
    requires state < WORDS
  {
    var seed := Unsteps(limit, w);
    if seed >= Seed(state) then seed - Seed(state) else seed + CYCLE - Seed(state)
  }

  lemma CallToWord(state: nat, limit: nat, k: nat)
    requires state < WORDS && k < CYCLE
    ensures 1 <= WordAt(state, limit, k) <= CYCLE
    ensures CallOf(state, limit, WordAt(state, limit, k)) == k
  {
    var seed := Seed(StateAt(state, k));
    SeedCycle(state, k);
    StepsBijective(limit, seed);
    CyclicSum(Seed(state) - 1, k);
  }

  lemma WordToCall(state: nat, limit: nat, w: nat)
    requires state < WORDS && 1 <= w <= CYCLE
    ensures CallOf(state, limit, w) < CYCLE
    ensures WordAt(state, limit, CallOf(state, limit, w)) == w
  {
    StepsBijective(limit, w);
    var k := CallOf(state, limit, w);
    SeedCycle(state, k);
    CyclicSum(Seed(state) - 1, k);
  }

  lemma CyclicSum(a: nat, k: nat)
    requires a < CYCLE && k < CYCLE
    ensures (a + k) % (WORDS - 1) == if a + k < CYCLE then a + k else a + k - CYCLE
  {
  }

  /** The calls of a cycle that pick slot `i` and the words whose residue is a
      ticket of slot `i` are equally many. */
  lemma WinsAreWords(shares: seq<nat>, state: nat, i: nat)
    requires state < WORDS && i < |shares| && Total(shares) % WORDS != 0
    ensures |WinsOf(shares, state, CYCLE, i)| ==
              |WordsIn(Total(shares) % WORDS, Passed(shares, i), Passed(shares, i + 1))|
  {
    var limit := Total(shares) % WORDS;
    var lo, hi := Passed(shares, i), Passed(shares, i + 1);
    var ks := WinsOf(shares, state, CYCLE, i);
    var ws := WordsIn(limit, lo, hi);
    var f := (k: nat) => WordAt(state, limit, k);
    var g := (w: nat) => CallOf(state, limit, w);
    forall k | k in ks
      ensures f(k) in ws && g(f(k)) == k
    {
      assert WinsAt(shares, state, k, i);
      CallToWord(state, limit, k);
    }
    forall w | w in ws
      ensures g(w) in ks && f(g(w)) == w
    {
      WordToCall(state, limit, w);
      assert WinsAt(shares, state, g(w), i);
    }
    BijectionSize(ks, ws, f, g);
  }

  /** The tickets of slot `i` that a draw below `limit` can hit. */
  function Reachable(shares: seq<nat>, i: nat, limit: nat): (n: nat)
    requires i < |shares|
  {
    Min(Passed(shares, i + 1), limit) - Min(Passed(shares, i), limit)
  }

  function Min(a: nat, b: nat): (m: nat)
  {
    if a <= b then a else b
  }

  /** Exact fairness: whatever the seed counter holds, in 65535 consecutive
      decisions every slot wins close to its share, for each ticket that the
      truncated total leaves within reach. */
  lemma FairWindow(shares: seq<nat>, state: nat, i: nat)
    requires state < WORDS && i < |shares| && Total(shares) % WORDS != 0
    ensures var limit := Total(shares) % WORDS;
            var wins := |WinsOf(shares, state, CYCLE, i)|;
            Reachable(shares, i, limit) * (CYCLE / limit) <= wins <= Reachable(shares, i, limit) * (CYCLE / limit + 1)
  {
    var limit := Total(shares) % WORDS;
    var lo, hi := Passed(shares, i), Passed(shares, i + 1);
    WinsAreWords(shares, state, i);
    WordsBelowLimit(limit, lo, hi);
    RangeCount(limit, Min(lo, limit), Min(hi, limit));
  }

  lemma WordsBelowLimit(limit: nat, lo: nat, hi: nat)
    requires limit > 0
    ensures WordsIn(limit, lo, hi) == WordsIn(limit, Min(lo, limit), Min(hi, limit))
  {
  }

  /** When the total fits 16 bits, every slot gets its share: between
      `tickets * floor(65535 / total)` and one more per ticket. */
  lemma FairShare(shares: seq<nat>, state: nat, i: nat)
    requires state < WORDS && i < |shares| && 0 < Total(shares) < WORDS
    ensures var quota := CYCLE / Total(shares);
            quota >= 1 &&
            shares[i] * quota <= |WinsOf(shares, state, CYCLE, i)| <= shares[i] * (quota + 1)
  {
    var total := Total(shares);
    assert total % WORDS == total;
    FairWindow(shares, state, i);
    PassedMonotone(shares, i, |shares|);
    PassedMonotone(shares, i + 1, |shares|);
    DivMonotone(total, CYCLE, total);
    MulMod(1, 0, total);
  }

  /** The theorem on the running scheduler: after 65535 passes over a steady
      table, every slot's tick counter has grown by its fair share. */
  method RunCycle(s: Scheduler)
    requires s.AtLoopHead()
    requires 0 < Total(Shares(s.table[..])) < WORDS
    modifies s, s.table, s.generator
    ensures s.AtLoopHead()
    ensures forall i :: 0 <= i < NPROC ==>
              var share := Share(old(s.table[i]));
              var quota := CYCLE / Total(Shares(old(s.table[..])));
              var gained := s.table[i].ticks - old(s.table[i]).ticks;
              s.table[i] == old(s.table[i]).(ticks := s.table[i].ticks) &&
              share * quota <= gained <= share * (quota + 1)
  {
    ghost var shares := Shares(s.table[..]);
    ghost var state := s.generator.startState;
    assert Total(shares) % WORDS == Total(shares);
    var trap := s.Run(CYCLE);
    forall i | 0 <= i < NPROC
      ensures var quota := CYCLE / Total(shares);
              shares[i] * quota <= |WinsOf(shares, state, CYCLE, i)| <= shares[i] * (quota + 1)
    {
      FairShare(shares, state, i);
    }
  }

  /** A RUNNABLE slot starves if and only if the tickets before it reach the
      truncated total: the draw then never gets as far as its tickets. */
  lemma StarvesIff(shares: seq<nat>, state: nat, i: nat)
    requires state < WORDS && i < |shares| && shares[i] > 0 && Total(shares) % WORDS != 0
    ensures (forall n: nat :: WinsOf(shares, state, n, i) == {}) <==> Passed(shares, i) >= Total(shares) % WORDS
    ensures Passed(shares, i) < Total(shares) % WORDS ==> WinsOf(shares, state, CYCLE, i) != {}
  {
    var limit := Total(shares) % WORDS;
    if Passed(shares, i) >= limit {
      forall n: nat
        ensures WinsOf(shares, state, n, i) == {}
      {
        OutOfReach(shares, state, n, i);
      }
    } else {
      InReach(shares, state, i);
    }
  }

  lemma OutOfReach(shares: seq<nat>, state: nat, n: nat, i: nat)
    requires i < |shares| && Total(shares) % WORDS != 0
    requires Passed(shares, i) >= Total(shares) % WORDS
    ensures WinsOf(shares, state, n, i) == {}
  {
    forall k: nat
      ensures !WinsAt(shares, state, k, i)
    {
      assert Draw(StateAt(state, k), Total(shares) % WORDS) < Total(shares) % WORDS;
    }
  }

  lemma InReach(shares: seq<nat>, state: nat, i: nat)
    requires state < WORDS && i < |shares| && shares[i] > 0 && Total(shares) % WORDS != 0
    requires Passed(shares, i) < Total(shares) % WORDS
    ensures WinsOf(shares, state, CYCLE, i) != {}
  {
    var limit := Total(shares) % WORDS;
    FairWindow(shares, state, i);
    DivMonotone(limit, CYCLE, limit);
    MulMod(1, 0, limit);
    MulMonotone(1, Reachable(shares, i, limit), CYCLE / limit);
  }

  /** The system call accepts any positive ticket count. With 2 tickets in one
      slot and 65535 in the next, and nobody else RUNNABLE, the total truncates to
      1 and the second process can never run. */
  lemma LargeTicketCountsStarve(t: seq<Proc>, state: nat, n: nat)
    requires |t| == NPROC && state < WORDS
    requires t[0].state == t[1].state == RUNNABLE && t[0].tickets == 2 && t[1].tickets == WORDS - 1
    requires forall i :: 2 <= i < NPROC ==> t[i].state != RUNNABLE
    ensures Total(Shares(t)) % WORDS == 1
    ensures WinsOf(Shares(t), state, n, 1) == {}
  {
    var shares := Shares(t);
    NoneAfter(shares, 2, NPROC);
    assert Passed(shares, 1) == Passed(shares, 0) + 2 && Passed(shares, 2) == WORDS + 1;
    OutOfReach(shares, state, n, 1);
  }
}
