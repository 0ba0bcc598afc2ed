/** Remainders under addition and multiplication. */
module Arithmetic {
  lemma RemainderUnique(x: nat, m: nat, q: nat, r: nat)
    requires m > 0 && x == m * q + r && r < m
    ensures x % m == r
  {
    var d := x / m - q;
    assert m * d == r - x % m;
    MultipleBeyond(m, d);
  }

  lemma MultipleBeyond(m: int, d: int)
    requires m > 0
    ensures d >= 1 ==> m * d >= m
    ensures d <= -1 ==> m * d <= -m
  {
  }

  lemma AddMultiple(x: nat, k: nat, m: nat)
    requires m > 0
    ensures (x + m * k) % m == x % m
  {
    var q := x / m;
    assert x == m * q + x % m;
    assert m * (q + k) == m * q + m * k;
    RemainderUnique(x + m * k, m, q + k, x % m);
  }

  /** Reducing before a multiplication does not change the remainder. */
  lemma ReduceFirst(m: nat, a: nat, b: nat)
    requires m > 0
    ensures (a % m) * b % m == a * b % m
  {
    var q := a / m;
    assert a * b == (a % m) * b + m * (q * b) by { assert a == m * q + a % m; }
    AddMultiple((a % m) * b, q * b, m);
  }

  /** Reducing before an addition does not change it either. */
  lemma ReduceSummand(a: nat, b: nat, m: nat)
    requires m > 0
    ensures (a % m + b) % m == (a + b) % m
  {
    var q := a / m;
    assert a + b == (a % m + b) + m * q;
    AddMultiple(a % m + b, q, m);
  }
}
