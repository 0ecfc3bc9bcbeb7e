/** The few facts about products and quotients of reals that the arithmetic proofs need, one at a time. */
module Reals {

  lemma QuotientTimes(x: real, y: real, q: real)
    requires y != 0.0 && q == x / y
    ensures q * y == x
  {
  }

  lemma ProductMonotone(a: real, b: real, c: real)
    requires a <= b && c >= 0.0
    ensures a * c <= b * c
  {
    assert (b - a) * c >= 0.0;
  }

  lemma ProductStrict(a: real, b: real, c: real)
    requires a < b && c > 0.0
    ensures a * c < b * c
  {
    assert (b - a) * c > 0.0;
  }

  /** Comparing products is comparing factors. */
  lemma ProductOrder(a: real, b: real, c: real)
    requires c > 0.0
    ensures a * c <= b * c <==> a <= b
  {
    if a <= b { ProductMonotone(a, b, c); } else { ProductStrict(b, a, c); }
  }

  lemma QuotientAtLeast(x: real, y: real, k: real)
    requires y > 0.0
    ensures x / y >= k <==> x >= k * y
  {
    var q := x / y;
    QuotientTimes(x, y, q);
    ProductOrder(k, q, y);
  }

  lemma QuotientAtMost(x: real, y: real, k: real)
    requires y > 0.0
    ensures x / y <= k <==> x <= k * y
  {
    var q := x / y;
    QuotientTimes(x, y, q);
    ProductOrder(q, k, y);
  }

  lemma QuotientIs(x: real, y: real, k: real)
    requires y > 0.0
    ensures x / y == k <==> x == k * y
  {
    QuotientAtLeast(x, y, k);
    QuotientAtMost(x, y, k);
  }

  lemma SelfQuotient(n: real)
    requires n > 0.0
    ensures n / n == 1.0
  {
    QuotientIs(n, n, 1.0);
  }

  lemma Distribute(n: real, a: real, b: real)
    ensures n * (a + b) == n * a + n * b
  {
  }

  lemma DifferenceTimes(p: real, q: real, n: real)
    ensures (p - q) * n == p * n - q * n
  {
  }

  lemma Reassociate(a: real, b: real, c: real)
    ensures a * (b * c) == (a * b) * c
  {
  }

  lemma Commute(a: real, b: real)
    ensures a * b == b * a
  {
  }
}
