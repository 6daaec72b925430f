/** Facts about `/` and `%` on natural numbers, each proved once and used by name. */
module Arithmetic {

  lemma Scaled(d: int, m: nat)
    ensures d >= 1 ==> d * m >= m
    ensures d <= 0 ==> d * m <= 0
    ensures d <= -1 ==> d * m <= 0 - m
  {
  }

  lemma DivModUnique(x: int, m: nat, q: int, r: nat)
    requires r < m
    requires x == q * m + r
    ensures x / m == q && x % m == r
  {
    var d := x / m - q;
    Scaled(d, m);
    assert d * m == (x / m) * m - q * m;
    assert 0 - m < d * m && d * m < m;
  }

  /** `x` is a multiple of `m` as soon as it is written as one. */
  lemma IsMultiple(x: int, m: nat, q: int)
    requires m > 0 && x == q * m
    ensures x % m == 0
  {
    DivModUnique(x, m, q, 0);
  }

  lemma MultipleSum(a: int, b: int, m: nat)
    requires m > 0 && a % m == 0 && b % m == 0
    ensures (a + b) % m == 0 && (a - b) % m == 0
  {
    var p, q := a / m, b / m;
    assert (p + q) * m == a + b && (p - q) * m == a - b;
    IsMultiple(a + b, m, p + q);
    IsMultiple(a - b, m, p - q);
  }

  lemma MultipleTrans(x: int, a: nat, m: nat)
    requires a > 0 && m > 0 && x % a == 0 && a % m == 0
    ensures x % m == 0
  {
    var p, q := x / a, a / m;
    assert x == p * (q * m) == (p * q) * m;
    IsMultiple(x, m, p * q);
  }

  /** Two different multiples of `m` are at least `m` apart. */
  lemma MultipleGap(x: int, y: int, m: nat)
    requires m > 0 && x % m == 0 && y % m == 0 && x < y
    ensures x + m <= y
  {
    var d := y / m - x / m;
    assert d * m == y - x;
    Scaled(d, m);
  }

  lemma ModShift(x: int, m: nat)
    requires m > 0
    ensures (x + m) % m == x % m && (x - m) % m == x % m
  {
    DivModUnique(x + m, m, x / m + 1, x % m);
    DivModUnique(x - m, m, x / m - 1, x % m);
  }

  /** Euclid's step keeps the common divisors. */
  lemma RemainderDivides(k: nat, a: nat, b: nat)
    requires k > 0 && a > 0 && a % k == 0
    ensures b % k == 0 <==> (b % a) % k == 0
  {
    var rest, whole := b % a, b / a * a;
    assert b == whole + rest;
    IsMultiple(whole, a, b / a);
    MultipleTrans(whole, a, k);
    if b % k == 0 {
      MultipleSum(b, whole, k);
    } else if rest % k == 0 {
      MultipleSum(whole, rest, k);
    }
  }
}
