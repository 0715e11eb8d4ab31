/** Integer quotients of natural numbers. */
module Quotients {

  lemma DivBounds(n: nat, d: nat, lo: nat, hi: nat)
    requires d > 0 && lo * d <= n < hi * d
    ensures lo <= n / d < hi
  {
    var q := n / d;
    assert n == d * q + n % d;
    assert (q + 1) * d == d * q + d;
    assert q * d == d * q;
    if q < lo {
      MulMonotone(q + 1, lo, d);
    }
    if q >= hi {
      MulMonotone(hi, q, d);
    }
  }

  lemma MulMonotone(a: int, b: int, d: nat)
    requires a <= b
    ensures a * d <= b * d
  {
  }

  lemma DivOfMultiple(m: nat, d: nat)
    requires d > 0
    ensures m * d / d == m
  {
    DivBounds(m * d, d, m, m + 1);
  }

  lemma DivTwice(n: nat, d: nat)
    requires d > 0
    ensures n / (256 * d) == n / d / 256
  {
    var q := n / d;
    var r := q / 256;
    assert n == d * q + n % d;
    assert q == 256 * r + q % 256;
    assert r * (256 * d) == d * (256 * r);
    MulMonotone(256 * r, q, d);
    MulMonotone(q + 1, 256 * r + 256, d);
    assert (q + 1) * d == d * q + d;
    assert (r + 1) * (256 * d) == (256 * r + 256) * d;
    assert (256 * r) * d == d * (256 * r) && q * d == d * q;
    DivBounds(n, 256 * d, r, r + 1);
  }

  lemma DivMonotone(n: nat, k: nat, d: nat)
    requires d > 0 && n <= k
    ensures n / d <= k / d
  {
    var q := n / d;
    assert n == d * q + n % d;
    var t := k / d;
    assert k == d * t + k % d;
    assert (t + 1) * d == d * t + d;
    assert q * d == d * q;
    if t < q {
      MulMonotone(t + 1, q, d);
    }
  }

  lemma ProductMod(q: nat, d: nat)
    requires d > 0
    ensures q * d % d == 0
  {
    var x := q * d;
    DivOfMultiple(q, d);
    assert x == d * (x / d) + x % d;
    assert d * q == x;
  }

  /** A quotient is pinned down by its bounds. */
  lemma DivIs(a: int, d: nat, q: int)
    requires d >= 1 && q * d <= a < (q + 1) * d
    ensures a / d == q
  {
    var r := a / d;
    assert r * d <= a < (r + 1) * d by {
      assert a == d * r + a % d;
    }
    if r < q {
      MulMonotone(r + 1, q, d);
    } else if r > q {
      MulMonotone(q + 1, r, d);
    }
  }

  function Pow2(h: nat): (p: nat)
    ensures p >= 1
  {
    if h == 0 then 1 else 2 * Pow2(h - 1)
  }
}
