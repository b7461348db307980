/** Order facts about products and floors that the solver does not find by itself. */
module Arithmetic {
  import opened Host

  lemma MulBound(a: int, b: int, maxA: int, maxB: int)
    requires 0 <= a <= maxA && 0 <= b <= maxB
    ensures 0 <= a * b <= maxA * maxB
  {
    assert a * b <= maxA * b by {
      assert (maxA - a) * b >= 0;
    }
    assert maxA * b <= maxA * maxB by {
      assert maxA * (maxB - b) >= 0;
    }
  }

  lemma ProductGap(a: int, b: int, f: int)
    requires f > 0 && a < b
    ensures a * f + f <= b * f
  {
    var d := b - a - 1;
    MulBound(d, f, d, f);
    assert b * f == a * f + f + d * f;
  }

  lemma CancelFactor(a: int, b: int, f: int)
    requires f > 0 && a * f <= b * f
    ensures a <= b
  {
    if a > b {
      ProductGap(b, a, f);
    }
  }

  /** A quotient is at most q whenever the dividend is below q + 1 times the divisor. */
  lemma DivAtMost(n: nat, d: nat, q: nat)
    requires d > 0 && n < q * d + d
    ensures n / d <= q
  {
    var k := n / d;
    assert k * d <= n;
    if k > q {
      ProductGap(q, k, d);
    }
  }

  lemma DivAtLeast(n: nat, d: nat, q: nat)
    requires d > 0 && q * d <= n
    ensures q <= n / d
  {
    var k := n / d;
    assert n < k * d + d;
    if k < q {
      ProductGap(k, q, d);
    }
  }

  lemma DivStep(n: nat, d: nat)
    requires 0 < d <= n
    ensures n / d == (n - d) / d + 1
  {
    var q := (n - d) / d;
    assert q * d <= n - d < q * d + d && (q + 1) * d == q * d + d;
    DivAtMost(n, d, q + 1);
    DivAtLeast(n, d, q + 1);
  }

  lemma DivShrinks(n: nat, d: nat)
    requires d > 0
    ensures 0 <= n / d <= n
  {
    MulBound(n, 1, n, d);
    DivAtMost(n, d, n);
  }

  lemma TruncDivMonotone(a: int, b: int, d: int)
    requires d > 0 && a <= b
    ensures TruncDiv(a, d) <= TruncDiv(b, d)
  {
    if a >= 0 {
      DivAtLeast(b, d, a / d);
    } else if b < 0 {
      DivAtLeast(-a, d, (-b) / d);
    } else {
      DivAtLeast(-a, d, 0);
      DivAtLeast(b, d, 0);
    }
  }
}
