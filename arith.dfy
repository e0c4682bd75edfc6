/** Integer facts the layout and partition proofs are built from. */
module Arith {

  /** `Math.ceil(a / n)` for a positive integer divisor. */
  function CeilDiv(a: int, n: int): (c: int)
    requires n > 0
    ensures (c - 1) * n < a <= c * n
  {
    var c := -((-a) / n);
    DivBounds(-a, n);
    c
  }

  lemma DivBounds(a: int, n: int)
    requires n > 0
    ensures (a / n) * n <= a < (a / n) * n + n
  {
    assert a == (a / n) * n + a % n;
  }

  lemma MulLe(a: int, b: int, d: int)
    requires a <= b && d >= 0
    ensures a * d <= b * d
  {
    var k := b - a;
    assert b * d == a * d + k * d;
  }

  /** Quotient and remainder are determined by the division equation. */
  lemma DivModUnique(n: int, d: int, q: int, r: int)
    requires d > 0 && 0 <= r < d && n == q * d + r
    ensures n / d == q && n % d == r
  {
    var q', r' := n / d, n % d;
    assert n == q' * d + r';
    if q' < q {
      assert (q' + 1) * d == q' * d + d;
      MulLe(q' + 1, q, d);
    } else if q < q' {
      assert (q + 1) * d == q * d + d;
      MulLe(q + 1, q', d);
    }
  }

  /** The quotient by `a` is below `b` exactly when the dividend is below `b * a`. */
  lemma QuotientBelow(n: nat, a: int, b: nat)
    requires a > 0
    ensures n / a < b <==> n < b * a
  {
    var q := n / a;
    DivBounds(n, a);
    assert (q + 1) * a == q * a + a;
    if q < b {
      MulLe(q + 1, b, a);
    } else {
      MulLe(b, q, a);
    }
  }
}
