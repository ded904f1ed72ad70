/** Integer division facts that the other modules share. */
module Arith {

  lemma {:induction false} Scale(n: int, a: int, b: int)
    requires n > 0 && a < b
    ensures n * a + n <= n * b
    decreases b - a
  {
    assert n * b == n * (b - 1) + n;
    if a < b - 1 {
      Scale(n, a, b - 1);
    }
  }

  /** Quotient and remainder are determined by x == n * q + r with 0 <= r < n. */
  lemma DivModUnique(x: int, n: int, q: int, r: int)
    requires n > 0 && x == n * q + r && 0 <= r < n
    ensures x / n == q && x % n == r
  {
    var k := x / n;
    assert x == n * k + x % n;
    if k < q {
      Scale(n, k, q);
    } else if q < k {
      Scale(n, q, k);
    }
  }

  /** One period more changes the quotient by one and the remainder not at all. */
  lemma OnePeriodMore(x: int, n: int)
    requires n > 0
    ensures (x + n) / n == x / n + 1 && (x + n) % n == x % n
  {
    assert n * (x / n + 1) == n * (x / n) + n;
    DivModUnique(x + n, n, x / n + 1, x % n);
  }
}
