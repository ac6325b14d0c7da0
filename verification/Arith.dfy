/** Products and quotients of naturals. */
module Arith {
  lemma MulLess(a: nat, b: nat, c: nat)
    requires a < b
    ensures a * c + c <= b * c
  {
    var d := b - a - 1;
    assert b * c == (a + 1 + d) * c == a * c + c + d * c;
  }

  lemma MulMonotone(a: nat, b: nat, c: nat)
    requires a <= b
    ensures a * c <= b * c
  {
    if a < b { MulLess(a, b, c); }
  }

  lemma DivModOf(q: nat, r: nat, d: nat)
    requires r < d
    ensures (q * d + r) / d == q && (q * d + r) % d == r
  {
    var n := q * d + r;
    assert n == n / d * d + n % d;
    if n / d < q { MulLess(n / d, q, d); }
    if n / d > q { MulLess(q, n / d, d); }
  }

  lemma QuotientLess(n: nat, a: nat, d: nat)
    requires d > 0 && n < a * d
    ensures n / d < a
  {
    assert n / d * d <= n;
    if n / d >= a { MulMonotone(a, n / d, d); }
  }

  lemma QuotientBelow(n: nat, q: nat, d: nat)
    requires d > 0 && n / d <= q
    ensures n < (q + 1) * d
  {
    assert n == n / d * d + n % d;
    MulMonotone(n / d, q, d);
    assert (q + 1) * d == q * d + d;
  }
}
