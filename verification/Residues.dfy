/** How many numbers below n leave a given remainder. */
module Residues {
  import opened Arith

  function Leaving(n: nat, m: nat, k: int): nat
    requires m > 0
  {
    if n == 0 then 0 else Leaving(n - 1, m, k) + if (n - 1) % m == k then 1 else 0
  }

  lemma {:induction false} ResiduesExact(n: nat, m: nat, k: nat)
    requires k < m
    ensures Leaving(n, m, k) == n / m + if n % m > k then 1 else 0
  {
    if n == 0 {
      DivModUnique(0, m, 0, 0);
    } else {
      ResiduesExact(n - 1, m, k);
      DivStep(n - 1, m);
    }
  }
}
