/**
 The pseudo-random generator of the lottery scheduler: a 16-bit Fibonacci
 shift register with taps 16, 14, 13 and 11, loaded from a seed counter that
 is incremented on every call.

 C's bitwise operators work on promoted, non-negative `int`s here, so words
 are naturals, the operators are defined bit by bit, and the assignments to a
 `ushort` reduce modulo 65536.
 */
module Lfsr {
  import opened Bits

  const WORDS: nat := 65536
  const TOP: nat := 32768

  // ---- Bitwise operators on naturals ----

  function Xor(a: nat, b: nat): (r: nat)
    decreases a + b
  {
    if a == 0 && b == 0 then 0
    else 2 * Xor(a / 2, b / 2) + (a + b) % 2
  }

  function Or(a: nat, b: nat): (r: nat)
    decreases a + b
  {
    if a == 0 && b == 0 then 0
    else 2 * Or(a / 2, b / 2) + (if a % 2 == 1 || b % 2 == 1 then 1 else 0)
  }

  lemma XorParity(a: nat, b: nat)
    ensures Xor(a, b) % 2 == (a + b) % 2
  {
  }

  /** Or-ing a number into the bits above another one adds it. */
  lemma {:induction false} OrDisjoint(a: nat, b: nat, k: nat)
    requires a < Pow2(k)
    ensures Or(a, b * Pow2(k)) == a + b * Pow2(k)
  {
    if k == 0 {
      OrZero(b);
    } else if a == 0 && b == 0 {
    } else {
      var m := b * Pow2(k - 1);
      assert b * Pow2(k) == 2 * m;
      OrDisjoint(a / 2, b, k - 1);
      assert a == 0 && 2 * m == 0 ==> a + b * Pow2(k) == 0;
    }
  }

  lemma {:induction false} OrZero(b: nat)
    ensures Or(0, b) == b
  {
    if b != 0 {
      OrZero(b / 2);
    }
  }

  // ---- One step of the register ----

  /** The XOR of the tap bits, in all sixteen positions: only bit 0 is wanted. */
  function TapBits(x: nat): (r: nat)
  {
    Xor(Xor(Xor(x, x / 4), x / 8), x / 32) % WORDS
  }

  /** The shift as the code writes it, without masking the feedback bit. */
  function Step(x: nat): (r: nat)
  {
    Or(x / 2, TapBits(x) * TOP) % WORDS
  }

  /** Three of the four taps, seen after the shift. */
  function Taps(h: nat): (t: nat)
  {
    h / 2 + h / 4 + h / 16
  }

  /** The shift as textbooks write it: bits move down by one and the parity
      of the four taps enters at the top. */
  function TextbookStep(x: nat): (r: nat)
  {
    x / 2 + TOP * ((x + Taps(x / 2)) % 2)
  }

  /** The fifteen stray feedback bits leave the register unharmed. */
  lemma StepIsTextbook(x: nat)
    requires x < WORDS
    ensures Step(x) == TextbookStep(x)
  {
    var bit := TapBits(x);
    assert Or(x / 2, bit * TOP) == x / 2 + bit * TOP by {
      TopIsPow2();
      OrDisjoint(x / 2, bit, 15);
    }
    assert bit % 2 == (x + Taps(x / 2)) % 2 by {
      TapParity(x);
      Halvings(x);
    }
    LowBitAtTop(x / 2, bit);
  }

  lemma TapParity(x: nat)
    ensures TapBits(x) % 2 == (x + x / 4 + x / 8 + x / 32) % 2
  {
    var a := Xor(x, x / 4);
    var b := Xor(a, x / 8);
    var c := Xor(b, x / 32);
    XorParity(x, x / 4);
    XorParity(a, x / 8);
    XorParity(b, x / 32);
    ParityChain(x, x / 4, x / 8, x / 32, a, b, c);
    EvenModulus(c);
  }

  lemma ParityChain(x: nat, p: nat, q: nat, r: nat, a: nat, b: nat, c: nat)
    requires a % 2 == (x + p) % 2 && b % 2 == (a + q) % 2 && c % 2 == (b + r) % 2
    ensures c % 2 == (x + p + q + r) % 2
  {
  }

  lemma EvenModulus(c: nat)
    ensures c % WORDS % 2 == c % 2
  {
  }

  lemma LowBitAtTop(h: nat, bit: nat)
    requires h < TOP
    ensures (h + bit * TOP) % WORDS == h + TOP * (bit % 2)
  {
    var q, r := bit / 2, bit % 2;
    assert h + bit * TOP == q * WORDS + (h + TOP * r);
    MulMod(q, h + TOP * r, WORDS);
  }

  lemma TopIsPow2()
    ensures Pow2(15) == TOP
  {
    assert Pow2(5) == 32;
    assert Pow2(10) == 1024;
  }

  lemma Halvings(x: nat)
    ensures x / 4 == x / 2 / 2 && x / 8 == x / 2 / 4 && x / 32 == x / 2 / 16
  {
  }

  /** The register content before a step. */
  function Unstep(y: nat): (r: nat)
  {
    2 * (y % TOP) + (y / TOP + Taps(y % TOP)) % 2
  }

  /** A step permutes the non-zero words: `Unstep` is its inverse on both sides. */
  lemma StepBijective(x: nat)
    requires 0 < x < WORDS
    ensures 0 < Step(x) < WORDS && Unstep(Step(x)) == x
    ensures 0 < Unstep(x) < WORDS && Step(Unstep(x)) == x
  {
    StepIsTextbook(x);
    TextbookForward(x);
    TextbookBackward(x);
    StepIsTextbook(Unstep(x));
  }

  lemma TextbookForward(x: nat)
    requires 0 < x < WORDS
    ensures 0 < TextbookStep(x) < WORDS && Unstep(TextbookStep(x)) == x
  {
    FeedIn(x / 2, x % 2, Taps(x / 2));
  }

  lemma TextbookBackward(y: nat)
    requires 0 < y < WORDS
    ensures 0 < Unstep(y) < WORDS && TextbookStep(Unstep(y)) == y
  {
    FeedOut(y % TOP, y / TOP, Taps(y % TOP));
  }

  /** Shifting in the parity of `2h + low` and `t`, and undoing it. */
  lemma FeedIn(h: nat, low: nat, t: nat)
    requires h < TOP && low < 2 && 2 * h + low > 0 && (h == 0 ==> t == 0)
    ensures var y := h + TOP * ((2 * h + low + t) % 2);
            0 < y < WORDS && y % TOP == h && y / TOP == (2 * h + low + t) % 2
    ensures ((2 * h + low + t) % 2 + t) % 2 == low
  {
    MulMod((2 * h + low + t) % 2, h, TOP);
    FeedbackUndone(2 * h + low, low, t);
  }

  /** Undoing a shift that brought in `top`, and redoing it. */
  lemma FeedOut(h: nat, top: nat, t: nat)
    requires h < TOP && top < 2 && h + TOP * top > 0 && (h == 0 ==> t == 0)
    ensures var x := 2 * h + (top + t) % 2;
            0 < x < WORDS && x / 2 == h && (x + t) % 2 == top
  {
    FeedbackUndone(top, top, t);
  }

  /** Adding the same taps twice restores a bit. */
  lemma FeedbackUndone(x: nat, low: nat, t: nat)
    requires x % 2 == low
    ensures ((x + t) % 2 + t) % 2 == low
  {
  }

  // ---- Many steps ----

  function Steps(n: nat, x: nat): (r: nat)
  {
    if n == 0 then x else Step(Steps(n - 1, x))
  }

  function Unsteps(n: nat, y: nat): (r: nat)
  {
    if n == 0 then y else Unsteps(n - 1, Unstep(y))
  }

  /** Any number of steps permutes the non-zero words. */
  lemma StepsBijective(n: nat, x: nat)
    requires 0 < x < WORDS
    ensures 0 < Steps(n, x) < WORDS && Unsteps(n, Steps(n, x)) == x
    ensures 0 < Unsteps(n, x) < WORDS && Steps(n, Unsteps(n, x)) == x
  {
    StepsForward(n, x);
    StepsBackward(n, x);
  }

  lemma {:induction false} StepsForward(n: nat, x: nat)
    requires 0 < x < WORDS
    ensures 0 < Steps(n, x) < WORDS && Unsteps(n, Steps(n, x)) == x
    decreases n
  {
    if n != 0 {
      StepsForward(n - 1, x);
      StepBijective(Steps(n - 1, x));
    }
  }

  lemma {:induction false} StepsBackward(n: nat, x: nat)
    requires 0 < x < WORDS
    ensures 0 < Unsteps(n, x) < WORDS && Steps(n, Unsteps(n, x)) == x
    decreases n
  {
    if n != 0 {
      StepBijective(x);
      StepsBackward(n - 1, Unstep(x));
    }
  }

  // ---- The seed counter ----

  /** The counter never loads a zero: the register would be stuck at zero. */
  function Seed(state: nat): (s: nat)
  {
    if state == 0 then 1 else state
  }

  /** The counter after a call, as a `ushort` increment. */
  function NextState(state: nat): (s: nat)
  {
    (Seed(state) + 1) % WORDS
  }

  /** The counter after `k` calls. */
  function StateAt(state: nat, k: nat): (s: nat)
  {
    if k == 0 then state else NextState(StateAt(state, k - 1))
  }

  /** The seed loaded by the `k`-th call: the counter runs through 1..65535 in
      a cycle, although it passes through zero on the way. */
  lemma {:induction false} SeedCycle(state: nat, k: nat)
    requires state < WORDS
    ensures StateAt(state, k) < WORDS
    ensures Seed(StateAt(state, k)) == (Seed(state) - 1 + k) % (WORDS - 1) + 1
  {
    if k != 0 {
      SeedCycle(state, k - 1);
      var a := Seed(state) - 1 + (k - 1);
      ModSucc(a, WORDS - 1);
      assert a + 1 == Seed(state) - 1 + k;
      Successor(StateAt(state, k - 1), a % (WORDS - 1));
    }
  }

  /** The counter after one call, given the seed of that call. */
  lemma Successor(state: nat, r: nat)
    requires r < WORDS - 1 && Seed(state) == r + 1
    ensures NextState(state) < WORDS
    ensures Seed(NextState(state)) == if r == WORDS - 2 then 1 else r + 2
  {
  }

  lemma ModSucc(a: nat, m: nat)
    requires m > 1
    ensures (a + 1) % m == if a % m == m - 1 then 0 else a % m + 1
  {
    var q, r := a / m, a % m;
    assert a == q * m + r;
    if r == m - 1 {
      assert a + 1 == (q + 1) * m;
      MulMod(q + 1, 0, m);
    } else {
      MulMod(q, r + 1, m);
    }
  }

  /** The number a call returns: the register after `limit` steps, reduced. */
  function Draw(state: nat, limit: nat): (r: nat)
    requires limit > 0
    ensures r < limit
  {
    Steps(limit, Seed(state)) % limit
  }

  // ---- The register as a stream of bits ----

  /** The bits that pass through a register loaded with `seed`: its own sixteen,
      and from then on each bit is the sum of four before it. */
  predicate Stream(seed: nat, k: nat)
  {
    if k < 16 then BitOf(seed, k)
    else (Stream(seed, k - 16) != Stream(seed, k - 14)) != (Stream(seed, k - 13) != Stream(seed, k - 11))
  }

  /** The word that shows bits `k` to `k + 15` of the stream. */
  ghost predicate Shows(w: nat, seed: nat, k: nat)
  {
    w < WORDS && forall j: nat :: j < 16 ==> BitOf(w, j) == Stream(seed, k + j)
  }

  lemma {:induction false} BitsBelow(h: nat, c: nat, m: nat, j: nat)
    requires h < Pow2(m) && c < 2 && j <= m
    ensures BitOf(h + c * Pow2(m), j) == if j < m then BitOf(h, j) else c == 1
  {
    if m > 0 {
      var x := h + c * Pow2(m);
      assert x == h + 2 * (c * Pow2(m - 1));
      assert x / 2 == h / 2 + c * Pow2(m - 1) && x % 2 == h % 2;
      if j > 0 {
        BitsBelow(h / 2, c, m - 1, j - 1);
      }
    }
  }

  lemma TapsAreBits(x: nat)
    ensures BitOf(x, 0) == (x % 2 == 1) && BitOf(x, 2) == (x / 4 % 2 == 1)
    ensures BitOf(x, 3) == (x / 8 % 2 == 1) && BitOf(x, 5) == (x / 32 % 2 == 1)
  {
    hide BitOf;
    LowBit(x);
    TwoAbove(x, 0);
    LowBit(x / 4);
    TwoAbove(x, 1);
    BitAbove(x / 4, 0);
    assert x / 4 / 2 == x / 8;
    LowBit(x / 8);
    TwoAbove(x, 3);
    TwoAbove(x / 4, 1);
    assert x / 4 / 4 == x / 16;
    BitAbove(x / 16, 0);
    assert x / 16 / 2 == x / 32;
    LowBit(x / 32);
  }

  lemma LowBit(x: nat)
    ensures BitOf(x, 0) == (x % 2 == 1)
  {
  }

  lemma TwoAbove(x: nat, j: nat)
    ensures BitOf(x, j + 2) == BitOf(x / 4, j)
  {
    hide BitOf;
    BitAbove(x, j + 1);
    BitAbove(x / 2, j);
    assert x / 2 / 2 == x / 4;
  }

  /** A step moves every bit down by one, and the sum of the taps comes in. */
  lemma StepBits(x: nat, j: nat)
    requires x < WORDS && j < 16
    ensures BitOf(Step(x), j) ==
            if j < 15 then BitOf(x, j + 1) else (BitOf(x, 0) != BitOf(x, 2)) != (BitOf(x, 3) != BitOf(x, 5))
  {
    hide Step;
    StepIsTextbook(x);
    Halvings(x);
    TapsAreBits(x);
    TopIsPow2();
    var c := (x + Taps(x / 2)) % 2;
    hide BitOf;
    BitsBelow(x / 2, c, 15, j);
    BitAbove(x, j);
    FourParities(x, x / 4, x / 8, x / 32);
  }

  lemma BitAbove(x: nat, j: nat)
    ensures BitOf(x, j + 1) == BitOf(x / 2, j)
  {
  }

  lemma FourParities(a: nat, b: nat, c: nat, d: nat)
    ensures ((a + b + c + d) % 2 == 1) <==>
            ((a % 2 == 1) != (b % 2 == 1)) != ((c % 2 == 1) != (d % 2 == 1))
  {
  }

  /** After `n` steps the register shows the stream from bit `n` on. */
  lemma {:induction false} StepsShow(n: nat, x: nat)
    requires 0 < x < WORDS
    ensures Shows(Steps(n, x), x, n)
  {
    hide Step, BitOf, Stream;
    StepsForward(n, x);
    if n > 0 {
      StepsShow(n - 1, x);
      StepsForward(n - 1, x);
    }
    forall j: nat | j < 16
      ensures BitOf(Steps(n, x), j) == Stream(x, n + j)
    {
      if n == 0 {
        StreamStarts(x, j);
      } else {
        ShowsNext(Steps(n - 1, x), x, n - 1, j);
      }
    }
  }

  lemma StreamStarts(seed: nat, k: nat)
    requires k < 16
    ensures Stream(seed, k) == BitOf(seed, k)
  {
  }

  lemma ShowsNext(y: nat, seed: nat, k: nat, j: nat)
    requires Shows(y, seed, k) && j < 16
    ensures BitOf(Step(y), j) == Stream(seed, k + 1 + j)
  {
    hide Step, BitOf, Stream;
    StepBits(y, j);
    if j < 15 {
      assert BitOf(y, j + 1) == Stream(seed, k + (j + 1));
    } else {
      StreamNext(seed, k);
      assert BitOf(y, 0) == Stream(seed, k + 0) && BitOf(y, 2) == Stream(seed, k + 2);
      assert BitOf(y, 3) == Stream(seed, k + 3) && BitOf(y, 5) == Stream(seed, k + 5);
    }
  }

  lemma StreamNext(seed: nat, k: nat)
    ensures Stream(seed, k + 16) ==
            ((Stream(seed, k) != Stream(seed, k + 2)) != (Stream(seed, k + 3) != Stream(seed, k + 5)))
  {
  }

  /** No two words show the same bits. */
  lemma {:induction false} SameBits(v: nat, w: nat, m: nat)
    requires v < Pow2(m) && w < Pow2(m) && forall j: nat :: j < m ==> BitOf(v, j) == BitOf(w, j)
    ensures v == w
  {
    if m > 0 {
      assert BitOf(v, 0) == BitOf(w, 0);
      forall j: nat | j < m - 1
        ensures BitOf(v / 2, j) == BitOf(w / 2, j)
      {
        assert BitOf(v, j + 1) == BitOf(w, j + 1);
      }
      SameBits(v / 2, w / 2, m - 1);
    }
  }

  lemma ShowsOnce(v: nat, w: nat, seed: nat, k: nat)
    requires Shows(v, seed, k) && Shows(w, seed, k)
    ensures v == w
  {
    hide BitOf, Stream;
    TopIsPow2();
    assert Pow2(16) == WORDS;
    forall j: nat | j < 16
      ensures BitOf(v, j) == BitOf(w, j)
    {
      assert BitOf(v, j) == Stream(seed, k + j);
    }
    SameBits(v, w, 16);
  }

  /** What a call yields: a number, or the trap of a remainder by zero. */
  datatype Drawn = Number(n: nat) | Trap

  /** The generator with its static seed counter. */
  class Generator {
    var startState: nat

    ghost predicate Valid()
      reads this
    {
      startState < WORDS
    }

    constructor ()
      ensures Valid() && startState == 0xACE1
    {
      startState := 0xACE1;
    }

    /** `limit` is a `ushort`; the final remainder traps exactly on zero, when the
        counter has moved on already. */
    method Generate(limit: nat) returns (r: Drawn)
      requires Valid() && limit < WORDS
      modifies this
      ensures Valid()
      ensures startState == NextState(old(startState))
      ensures r == if limit == 0 then Trap else Number(Draw(old(startState), limit))
      ensures var seed := if old(startState) == 0 then 1 else old(startState);
              && startState == (seed + 1) % WORDS
              && (limit > 0 ==> exists w: nat :: Shows(w, seed, limit) && r == Number(w % limit))
    {
      hide Or, Xor, TapBits, Shows;
      if startState == 0 {
        startState := startState + 1;
      }
      var lfsr := startState;
      ghost var seed := lfsr;
      startState := (startState + 1) % WORDS;
      var bit := TapBits(lfsr);
      lfsr := Or(lfsr / 2, bit * TOP) % WORDS;
      var i := 1;
      while i < limit
        invariant 1 <= i && (limit > 0 ==> i <= limit)
        invariant lfsr == Steps(i, seed)
      {
        bit := TapBits(lfsr);
        lfsr := Or(lfsr / 2, bit * TOP) % WORDS;
        i := i + 1;
      }
      if limit == 0 {
        return Trap;
      }
      StepsShow(limit, seed);
      return Number(lfsr % limit);
    }
  }
}
