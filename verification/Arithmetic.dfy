/** Products, quotients and remainders. */
module Arithmetic {
  lemma SmallMultiple(a: int, m: int)
    requires -m < a * m < m
    ensures a == 0
  {}

  /** Quotient and remainder are unique. */
  lemma RemainderIs(x: int, m: int, q: int, r: int)
    requires 0 <= r < m && x == q * m + r
    ensures x % m == r && x / m == q
  {
    var p := x / m;
    assert x == p * m + x % m;
    assert (q - p) * m == q * m - p * m;
    SmallMultiple(q - p, m);
  }

  lemma MultipleMod(n: int, m: int)
    requires m > 0
    ensures (n * m) % m == 0
  {
    RemainderIs(n * m, m, n, 0);
  }

  lemma MultipleAt(x: int, m: int)
    requires m > 0 && x % m == 0
    ensures x == x / m * m
  {}

  lemma MulLess(a: int, b: int, m: int)
    requires m > 0 && a * m < b * m
    ensures a < b
  {
    assert (b - a) * m > 0;
  }

  /** Between two different multiples there is room for one more. */
  lemma NextMultiple(a: int, b: int, m: int)
    requires m > 0 && a * m < b * m
    ensures a * m + m <= b * m
  {
    MulLess(a, b, m);
    NotNegative(b - a - 1, m);
    assert b * m == a * m + m + (b - a - 1) * m;
  }

  lemma NotNegative(k: nat, m: nat)
    ensures k * m >= 0
  {}
}
