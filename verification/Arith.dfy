/** Facts about Euclidean division that the topology and ring modules share. */
module Arith {

  // A quotient and a remainder in range are the quotient and the remainder.
  lemma DivModUnique(a: int, n: int, q: int, m: int)
    requires n > 0 && 0 <= m < n && a == n * q + m
    ensures a / n == q && a % n == m
  {
    assert n * (q - a / n) == a % n - m;
    if q != a / n {
      MulFar(n, q - a / n);
    }
  }

  lemma MulFar(n: int, d: int)
    requires n > 0 && d != 0
    ensures n * d >= n || n * d <= -n
  {
  }

  lemma DivStep(a: int, n: int)
    requires n > 0
    ensures (a + 1) % n == if a % n + 1 < n then a % n + 1 else 0
    ensures (a + 1) / n == if a % n + 1 < n then a / n else a / n + 1
  {
    var q, m := a / n, a % n;
    if m + 1 < n {
      DivModUnique(a + 1, n, q, m + 1);
    } else {
      assert n * (q + 1) == n * q + n;
      DivModUnique(a + 1, n, q + 1, 0);
    }
  }

  lemma MulMono(n: int, x: int, y: int)
    requires n >= 0 && x <= y
    ensures n * x <= n * y
  {
  }

  lemma QuotientNat(n: nat, c: nat)
    requires c >= 1
    ensures n / c >= 0
  {
    if n / c < 0 {
      MulMono(c, n / c, -1);
    }
  }

  lemma QuotientPositive(n: nat, c: nat)
    requires c >= 1 && n >= 1 && n % c == 0
    ensures n / c >= 1
  {
    assert n == c * (n / c);
  }

  lemma MulPositive(n: int, m: int)
    requires n > 0 && m > 0
    ensures n * m > 0
  {
  }

  lemma MulNext(n: int, m: int)
    ensures (n + 1) * m == n * m + m && m * (n + 1) == m * n + m
  {
  }
}
