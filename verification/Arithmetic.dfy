/** Facts about products, quotients and remainders that the solver needs to be told. */
module Arithmetic {

  lemma {:induction false} MulAtLeast(k: nat, d: nat)
    requires k >= 1
    ensures k * d >= d
  {
    assert k * d == (k - 1) * d + d;
  }

  lemma Distribute(a: int, b: int, d: int)
    ensures (a - b) * d == a * d - b * d
  {
  }

  lemma DivModUnique(n: nat, d: nat, q: nat, r: nat)
    requires r < d
    requires n == q * d + r
    ensures n / d == q && n % d == r
  {
    var q', r' := n / d, n % d;
    var p, p' := q * d, q' * d;
    assert n == p' + r';
    Distribute(q, q', d);
    Distribute(q', q, d);
    if q > q' {
      MulAtLeast(q - q', d);
    } else if q' > q {
      MulAtLeast(q' - q, d);
    }
  }

  lemma Decompose(n: nat, d: nat) returns (q: nat, r: nat)
    requires d > 0
    ensures n == q * d + r && r < d && q == n / d && r == n % d
  {
    q, r := n / d, n % d;
  }

  // Products keep the order of their left factors.
  lemma OrderKept(a: nat, b: nat, d: nat)
    ensures a <= b ==> a * d <= b * d
    ensures a < b ==> a * d + d <= b * d
  {
    if a < b {
      Distribute(b, a, d);
      MulAtLeast(b - a, d);
    }
  }
}
