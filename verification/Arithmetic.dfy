/** Division facts the solver does not find by itself. */
module Arithmetic {
  lemma {:induction false} MultipleOfAPositive(n: int, q: int)
    requires n > 0 && -n < n * q < n
    ensures q == 0
  {
  }

  lemma {:induction false} Quotient(x: int, d: int, q: int, r: int)
    requires d > 0 && x == d * q + r && 0 <= r < d
    ensures x / d == q && x % d == r
  {
    assert d * (x / d - q) == r - x % d;
    MultipleOfAPositive(d, x / d - q);
  }

  lemma {:induction false} SameRemainder(a: int, b: int, n: int)
    requires n > 0 && a % n == b % n && -n < a - b < n
    ensures a == b
  {
    assert a - b == n * (a / n - b / n);
    MultipleOfAPositive(n, a / n - b / n);
  }

  lemma {:induction false} RemainderReached(a: int, k: int, n: int)
    requires n > 0 && 0 <= k < n
    ensures (a + (k - a) % n) % n == k
  {
    assert a + (k - a) % n == n * -((k - a) / n) + k;
    Quotient(a + (k - a) % n, n, -((k - a) / n), k);
  }
}
