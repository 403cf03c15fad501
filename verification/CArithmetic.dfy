/** Integer division of C: it truncates toward zero, and the remainder follows the dividend. */
module CArithmetic {

  function Quot(a: int, b: int): int
    requires b > 0
  {
    if a >= 0 then a / b else -((-a) / b)
  }

  function Rem(a: int, b: int): int
    requires b > 0
  {
    if a >= 0 then a % b else -((-a) % b)
  }

  predicate Int32(x: int) { -0x8000_0000 <= x < 0x8000_0000 }

  /** The quotient is the one that leaves less than the divisor. */
  lemma QuotientIs(a: int, p: nat, q: int, r: int)
    requires p > 0 && a == p * q + r && 0 <= r < p
    ensures a / p == q
  {
    var d := a / p - q;
    assert p * (a / p) == p * q + p * d;
    assert d > 0 ==> p * d >= p;
    assert d < 0 ==> p * d <= -(p as int);
  }

  lemma Nested(k: nat, p: nat, q: int, b: nat, r: nat)
    requires b < p && r < k
    ensures k * (p * q + b) + r == k * p * q + (k * b + r) && k * b + r < k * p
  {
    assert k * (p * q) == k * p * q;
    assert k * b <= k * (p - 1) == k * p - k;
  }

  /** Dividing twice is dividing by the product. */
  lemma DivideTwice(u: int, k: nat, p: nat)
    requires k > 0 && p > 0
    ensures k * p > 0 && u / k / p == u / (k * p)
  {
    var a, q := u / k, u / k / p;
    Nested(k, p, q, a % p, u % k);
    QuotientIs(u, k * p, q, k * (a % p) + u % k);
  }
}
