/** Machine integers, and the arithmetic facts about products and quotients that proofs cite by name. */
module Numbers {
  const U32_RANGE: nat := 0x1_0000_0000
  const U64_RANGE: nat := 0x1_0000_0000_0000_0000

  type U32 = x: nat | x < U32_RANGE
  type U64 = x: nat | x < U64_RANGE

  function Min(a: nat, b: nat): nat {
    if a <= b then a else b
  }

  function Power2(k: nat): (p: nat)
    ensures p > 0
  {
    if k == 0 then 1 else 2 * Power2(k - 1)
  }

  lemma {:induction false} NextMultiple(a: nat, b: nat, n: nat)
    requires a < b
    ensures a * n + n <= b * n
  {
    assert b * n == (b - 1) * n + n;
    if a < b - 1 { NextMultiple(a, b - 1, n); }
  }

  lemma ProductMonotone(a: nat, b: nat, n: nat)
    requires a <= b
    ensures a * n <= b * n
  {
    if a < b { NextMultiple(a, b, n); }
  }

  /** `a` is `q` times `n` and a remainder `r`. */
  predicate Divides(a: nat, n: nat, q: nat, r: nat) {
    a == q * n + r && r < n
  }

  lemma Division(a: nat, n: nat)
    requires n > 0
    ensures Divides(a, n, a / n, a % n)
  {
  }

  lemma Quotient(a: nat, n: nat, q: nat, r: nat)
    requires Divides(a, n, q, r)
    ensures a / n == q && a % n == r
  {
    var d := a / n;
    assert a == d * n + a % n;
    if d < q { NextMultiple(d, q, n); }
    if q < d { NextMultiple(q, d, n); }
  }

  lemma QuotientAtLeast(q: nat, n: nat, a: nat)
    requires n > 0 && q * n <= a
    ensures q <= a / n
  {
    var d := a / n;
    assert a == d * n + a % n;
    if d < q { NextMultiple(d, q, n); }
  }

  lemma SmallQuotient(a: nat, n: nat)
    requires a < n
    ensures a / n == 0 && a % n == a
  {
    Quotient(a, n, 0, a);
  }

  lemma DividesSum(a: nat, b: nat, n: nat, qa: nat, ra: nat, qb: nat, rb: nat)
    requires Divides(a, n, qa, ra) && Divides(b, n, qb, rb)
    ensures if ra + rb < n then Divides(a + b, n, qa + qb, ra + rb) else Divides(a + b, n, qa + qb + 1, ra + rb - n)
  {
    assert (qa + qb) * n == qa * n + qb * n;
    assert (qa + qb + 1) * n == qa * n + qb * n + n;
  }

  /** A sum's quotient is the sum of the quotients, plus one if the remainders overflow. */
  lemma SumOfQuotients(a: nat, b: nat, n: nat)
    requires n > 0
    ensures (a + b) / n == a / n + b / n + if a % n + b % n < n then 0 else 1
  {
    var qa, ra, qb, rb := a / n, a % n, b / n, b % n;
    Division(a, n);
    Division(b, n);
    DividesSum(a, b, n, qa, ra, qb, rb);
    Quotient(a + b, n, if ra + rb < n then qa + qb else qa + qb + 1, if ra + rb < n then ra + rb else ra + rb - n);
  }
}
