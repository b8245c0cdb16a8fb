/**
 * Facts about integer multiplication, Euclidean division and powers of ten
 * that the index and digit arguments share.
 */
module Arith {

  function Pow10(k: nat): (p: nat)
    ensures p >= 1
    ensures k >= 1 ==> p >= 10
  {
    if k == 0 then 1 else 10 * Pow10(k - 1)
  }

  lemma SmallPowers()
    ensures Pow10(1) == 10 && Pow10(2) == 100 && Pow10(3) == 1000 && Pow10(4) == 10000
  {
    assert Pow10(1) == 10;
    assert Pow10(2) == 100;
    assert Pow10(3) == 1000;
  }

  /** A non-zero multiple of a positive m is at least m away from zero. */
  lemma MulSign(d: int, m: int)
    requires m > 0
    ensures d >= 1 ==> d * m >= m
    ensures d <= -1 ==> d * m <= -m
  {
    if d >= 1 {
      assert d * m == (d - 1) * m + m;
      assert (d - 1) * m >= 0;
    } else if d <= -1 {
      assert d * m == (d + 1) * m - m;
      assert (d + 1) * m <= 0;
    }
  }

  /** Euclidean division of q * m + r with 0 <= r < m gives back q and r. */
  lemma DivModOfSum(q: int, r: int, m: int)
    requires 0 <= r < m
    ensures (q * m + r) / m == q && (q * m + r) % m == r
  {
    var n := q * m + r;
    var q', r' := n / m, n % m;
    assert n == q' * m + r' && 0 <= r' < m;
    assert (q' - q) * m == r - r';
    MulSign(q' - q, m);
  }

  /** The last k + 1 decimal digits of n are the last k digits of n / 10, then the last digit. */
  lemma ModTenStep(n: nat, p: nat)
    requires p >= 1
    ensures (n / 10) % p * 10 + n % 10 == n % (10 * p)
  {
    var a, b := n / 10, n % 10;
    var q, r := a / p, a % p;
    assert n == (q * (10 * p)) + (10 * r + b) by {
      assert n == 10 * a + b;
      assert a == q * p + r;
    }
    DivModOfSum(q, 10 * r + b, 10 * p);
  }
}
