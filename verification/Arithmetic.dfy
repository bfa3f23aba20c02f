/** Quotients and remainders. */
module Arithmetic {
  lemma MulMono(a: int, b: int, n: nat)
    requires a <= b
    ensures n * a <= n * b
  {
  }

  lemma MulAssoc(a: int, b: int, c: int)
    ensures a * (b * c) == (a * b) * c
  {
  }

  lemma Division(g: nat, n: nat)
    requires n > 0
    ensures n * (g / n) <= g < n * (g / n) + n && g % n == g - n * (g / n)
  {
  }

  lemma QuotientIs(g: nat, n: nat, k: nat)
    requires n > 0 && n * k <= g < n * k + n
    ensures g / n == k && g % n == g - n * k
  {
    Division(g, n);
    var q := g / n;
    assert q > k ==> n * q >= n * (k + 1) by { if q > k { MulMono(k + 1, q, n); } }
    assert q < k ==> n * k >= n * (q + 1) by { if q < k { MulMono(q + 1, k, n); } }
    assert n * (k + 1) == n * k + n && n * (q + 1) == n * q + n;
  }
}
