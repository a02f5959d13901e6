/** Facts about quotients of natural numbers. */
module Arithmetic {

  lemma DivBounds(a: nat, b: int)
    requires b > 0
    ensures (a / b) * b <= a < (a / b + 1) * b
  {
    assert a == b * (a / b) + a % b;
  }

  lemma FactorsCompare(m: int, n: int, b: int)
    requires b > 0 && m * b < n * b
    ensures m < n
  {
  }

  lemma DivIsMonotone(a: nat, c: nat, b: int)
    requires b > 0 && a <= c
    ensures a / b <= c / b
  {
    DivBounds(a, b);
    DivBounds(c, b);
    FactorsCompare(a / b, c / b + 1, b);
  }

  lemma QuotientIs(a: nat, b: int, q: int)
    requires b > 0 && q * b <= a < (q + 1) * b
    ensures a / b == q
  {
    DivBounds(a, b);
    FactorsCompare(a / b, q + 1, b);
    FactorsCompare(q, a / b + 1, b);
  }

  /** Counting one further either raises the remainder, or wraps it and raises the quotient. */
  lemma NextQuotient(a: nat, b: int)
    requires b > 0
    ensures if a % b + 1 < b then (a + 1) / b == a / b && (a + 1) % b == a % b + 1
            else (a + 1) / b == a / b + 1 && (a + 1) % b == 0
  {
    var q := a / b;
    assert a == b * q + a % b;
    assert (q + 1) * b == q * b + b && (q + 2) * b == q * b + 2 * b;
    QuotientIs(a + 1, b, if a % b + 1 < b then q else q + 1);
    assert a + 1 == b * ((a + 1) / b) + (a + 1) % b;
  }

  /** Quotients add up exactly when the remainders leave room. */
  lemma QuotientsAdd(a: nat, c: nat, b: int)
    requires b > 0
    ensures (a + c) / b == a / b + c / b <==> a % b + c % b < b
  {
    var m, n := a / b, c / b;
    assert a == b * m + a % b && c == b * n + c % b;
    assert (m + n) * b == m * b + n * b && (m + n + 1) * b == m * b + n * b + b
        && (m + n + 2) * b == m * b + n * b + 2 * b;
    QuotientIs(a + c, b, if a % b + c % b < b then m + n else m + n + 1);
  }
}
