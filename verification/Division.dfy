/** Uniqueness of quotient and remainder. */
module Division {

  lemma MulAtLeast(a: int, b: int, p: nat)
    requires a < b
    ensures a * p + p <= b * p
  {
    assert (b - a) * p >= p by { assert (b - a - 1) * p >= 0; }
  }

  lemma ModUnique(n: nat, q: int, r: nat, p: nat)
    requires r < p && n == q * p + r
    ensures n % p == r
  {
    var q', r' := n / p, n % p;
    assert n == q' * p + r';
    if q < q' { MulAtLeast(q, q', p); }
    else if q' < q { MulAtLeast(q', q, p); }
  }
}
