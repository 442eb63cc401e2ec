/** Division with remainder by a variable divisor, in the few steps the solver cannot take alone. */
module Division {
  lemma Distribute(q: nat, p: nat)
    ensures (q + 1) * p == q * p + p
  {
  }

  lemma Monotone(q: nat, q': nat, p: nat)
    requires q <= q'
    ensures q * p <= q' * p
  {
  }

  lemma Divide(a: nat, p: nat) returns (q: nat, r: nat)
    requires p >= 1
    ensures a == q * p + r && r < p && q == a / p && r == a % p
  {
    q, r := a / p, a % p;
  }

  lemma SameDivision(p: nat, q: nat, r: nat, q': nat, r': nat)
    requires r < p && r' < p && q * p + r == q' * p + r'
    ensures q == q' && r == r'
  {
    if q < q' {
      Distribute(q, p);
      Monotone(q + 1, q', p);
    } else if q' < q {
      Distribute(q', p);
      Monotone(q' + 1, q, p);
    }
  }

  /** Quotient and remainder are unique. */
  lemma DivisionIs(a: nat, p: nat, q: nat, r: nat)
    requires r < p && a == q * p + r
    ensures a / p == q && a % p == r
  {
    var q', r' := Divide(a, p);
    SameDivision(p, q, r, q', r');
  }

  lemma NextRemainder(t: nat, p: nat)
    requires p >= 1
    ensures (t + 1) % p == if t % p + 1 == p then 0 else t % p + 1
  {
    var q, r := Divide(t, p);
    var q', r' := Divide(t + 1, p);
    if r + 1 == p {
      Distribute(q, p);
      SameDivision(p, q + 1, 0, q', r');
    } else {
      SameDivision(p, q, r + 1, q', r');
    }
  }

  /** A number with a remainder is no multiple. */
  lemma NotAMultiple(k: nat, n: nat, q: nat, r: nat)
    requires 0 < r < n
    ensures k * n != q * n + r
  {
    if k * n + 0 == q * n + r {
      SameDivision(n, k, 0, q, r);
    }
  }
}
