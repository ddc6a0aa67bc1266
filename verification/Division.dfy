/** Division with remainder, one fact at a time. */
module Division {
  lemma Distributes(d: int, a: int, b: int)
    ensures d * (a - b) == d * a - d * b
  {}

  lemma AtLeast(d: nat, k: int)
    requires k >= 1
    ensures d * k >= d
  {
    assert d * (k - 1) >= 0;
  }

  lemma SameQuotient(d: nat, q: int, r: int, p: int, s: int)
    requires d > 0 && 0 <= r < d && 0 <= s < d
    requires d * q + r == d * p + s
    ensures q == p && r == s
  {
    Distributes(d, q, p);
    if q > p {
      AtLeast(d, q - p);
    } else if q < p {
      Distributes(d, p, q);
      AtLeast(d, p - q);
    }
  }

  lemma Divided(d: nat, n: int)
    requires d > 0
    ensures n == d * (n / d) + n % d && 0 <= n % d < d
  {}

  lemma Quotient(d: nat, n: int, q: int, r: int)
    requires d > 0 && 0 <= r < d && n == d * q + r
    ensures n / d == q && n % d == r
  {
    Divided(d, n);
    SameQuotient(d, q, r, n / d, n % d);
  }

  /** Adding d keeps the remainder. */
  lemma OneMore(d: nat, n: int)
    requires d > 0
    ensures (n + d) % d == n % d
  {
    Divided(d, n);
    assert d * (n / d + 1) == d * (n / d) + d by { Distributes(d, n / d + 1, 1); }
    Quotient(d, n + d, n / d + 1, n % d);
  }

  lemma Monotone(d: nat, a: int, b: int)
    requires a >= b
    ensures d * a >= d * b
  {
    Distributes(d, a, b);
    assert d * (a - b) >= 0;
  }

  lemma Ordered(d: nat, a: int, b: int)
    requires d * a < d * b
    ensures a < b
  {
    if a >= b {
      Monotone(d, a, b);
    }
  }

  /** Two different multiples of d are at least d apart. */
  lemma Gap(d: nat, n: int, m: int)
    requires d > 0 && n % d == 0 && m % d == 0 && n < m
    ensures n + d <= m
  {
    Divided(d, n);
    Divided(d, m);
    Ordered(d, n / d, m / d);
    Distributes(d, m / d, n / d);
    AtLeast(d, m / d - n / d);
  }

  lemma Multiple(d: nat, k: int)
    requires d > 0
    ensures (d * k) % d == 0
  {
    Quotient(d, d * k, k, 0);
  }

  /** Rounding down to a multiple. */
  lemma RoundedDown(d: nat, n: int)
    requires d > 0
    ensures n / d * d <= n < n / d * d + d
  {
    Divided(d, n);
  }
}
