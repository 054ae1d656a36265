/**
 The bits of a number.
 */
module Bits {

  predicate BitOf(x: nat, k: nat)
  {
    if k == 0 then x % 2 == 1 else BitOf(x / 2, k - 1)
  }

  function WithBit(x: nat, k: nat, v: bool): (y: nat)
  {
    if k == 0 then x / 2 * 2 + (if v then 1 else 0) else WithBit(x / 2, k - 1, v) * 2 + x % 2
  }

  lemma {:induction false} WithBitAt(x: nat, k: nat, v: bool, j: nat)
    ensures BitOf(WithBit(x, k, v), j) == if j == k then v else BitOf(x, j)
  {
    var y := WithBit(x, k, v);
    if k > 0 {
      assert y / 2 == WithBit(x / 2, k - 1, v) && y % 2 == x % 2;
      if j > 0 {
        WithBitAt(x / 2, k - 1, v, j - 1);
      }
    } else {
      assert y / 2 == x / 2;
    }
  }

  function Pow2(k: nat): (p: nat)
    ensures p > 0
  {
    if k == 0 then 1 else 2 * Pow2(k - 1)
  }

  lemma {:induction false} WithBitFits(x: nat, k: nat, v: bool, n: nat)
    requires k < n && x < Pow2(n)
    ensures WithBit(x, k, v) < Pow2(n)
  {
    if k > 0 {
      WithBitFits(x / 2, k - 1, v, n - 1);
    }
  }

  lemma MulMod(q: int, r: int, m: int)
    requires 0 <= r < m
    ensures (q * m + r) % m == r && (q * m + r) / m == q
  {
    var n := q * m + r;
    assert n == n / m * m + n % m;
    SmallMultiple(n / m - q, m);
  }

  lemma SmallMultiple(d: int, m: int)
    requires m > 0 && -m < d * m < m
    ensures d == 0
  {
    assert d >= 1 ==> d * m >= 1 * m;
    assert d <= -1 ==> d * m <= -1 * m;
  }
}
