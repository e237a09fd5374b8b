/** Division with remainder, for the modules that wrap or align. */
module Arith {

  lemma MulSign(a: nat, d: int)
    ensures d >= 1 ==> a * d >= a
    ensures d <= -1 ==> a * d + a <= 0
    ensures d == 0 ==> a * d == 0
  {
  }

  lemma DivModUnique(n: int, a: nat, q: int, r: int)
    requires a > 0 && n == a * q + r && 0 <= r < a
    ensures n / a == q && n % a == r
  {
    var d := q - n / a;
    assert n == a * (n / a) + n % a;
    assert a * d == a * q - a * (n / a);
    MulSign(a, d);
  }

  lemma ModOfMultiple(q: int, a: nat)
    requires a > 0
    ensures (a * q) % a == 0
  {
    DivModUnique(a * q, a, q, 0);
  }

  lemma ModAddMultiple(n: int, a: nat, k: int)
    requires a > 0
    ensures (n + a * k) % a == n % a
  {
    assert n == a * (n / a) + n % a;
    assert a * (n / a + k) == a * (n / a) + a * k;
    DivModUnique(n + a * k, a, n / a + k, n % a);
  }

  /** Two numbers with the same remainder differ by a multiple. */
  lemma SameRemainder(n: int, m: int, a: nat) returns (k: int)
    requires a > 0 && n % a == m % a
    ensures n - m == a * k
  {
    k := n / a - m / a;
    assert n == a * (n / a) + n % a && m == a * (m / a) + m % a;
    assert a * k == a * (n / a) - a * (m / a);
  }

  lemma MultiplesApart(n: int, m: int, a: nat)
    requires a > 0 && n % a == 0 && m % a == 0 && m < n
    ensures m + a <= n
  {
    var k := SameRemainder(n, m, a);
    MulSign(a, k);
  }

  lemma DivisorOfDivisor(n: int, a: nat, c: nat)
    requires a > 0 && c > 0 && a * c > 0 && n % (a * c) == 0
    ensures n % a == 0
  {
    var q := n / (a * c);
    assert n == a * c * q == a * (c * q);
    ModOfMultiple(c * q, a);
  }
}
