/**
 Facts about integer floor division used by the loot-chance and elapsed-time models.

 For a positive divisor Dafny's `/` and `%` coincide with Python's `//` and `%`
 (and with `math.floor` of the exact quotient), so these lemmas are stated for
 positive divisors only.
 */
module Arith {

  /** Quotient and remainder are determined by the division identity. */
  lemma DivUnique(a: int, d: int, q: int, r: int)
    requires d > 0 && 0 <= r < d && a == q * d + r
    ensures a / d == q && a % d == r
  {
    var q0, r0 := a / d, a % d;
    assert a == q0 * d + r0;
    assert (q - q0) * d == r0 - r;
    if q0 < q {
      MulAtLeast(q - q0, d);
      assert false;
    } else if q < q0 {
      MulAtLeast(q0 - q, d);
      assert false;
    }
  }

  /** A positive multiple of a positive number is at least that number. */
  lemma MulAtLeast(k: int, d: int)
    requires k >= 1 && d > 0
    ensures k * d >= d
  {
    assert k * d == (k - 1) * d + d;
    assert (k - 1) * d >= 0;
  }

  /** Dividing twice is dividing by the product: floor(floor(a/b)/c) == floor(a/(b*c)). */
  lemma DivDiv(a: int, b: int, c: int)
    requires b > 0 && c > 0
    ensures (a / b) / c == a / (b * c)
  {
    var q1, r1 := a / b, a % b;
    var q2, r2 := q1 / c, q1 % c;
    NestedRemainder(a, b, c, q1, r1, q2, r2);
    DivUnique(a, b * c, q2, r2 * b + r1);
  }

  /** The division identity for a nested quotient, with the bound on its remainder. */
  lemma NestedRemainder(a: int, b: int, c: int, q1: int, r1: int, q2: int, r2: int)
    requires b > 0 && c > 0
    requires a == q1 * b + r1 && 0 <= r1 < b
    requires q1 == q2 * c + r2 && 0 <= r2 < c
    ensures a == q2 * (b * c) + (r2 * b + r1)
    ensures 0 <= r2 * b + r1 < b * c
  {
    calc {
      a;
      q1 * b + r1;
      (q2 * c + r2) * b + r1;
      q2 * (b * c) + (r2 * b + r1);
    }
    assert r2 * b <= (c - 1) * b by { MulMonotone(r2, b, c - 1, b); }
  }

  /** Floor division by a positive number is monotone in the dividend. */
  lemma DivMonotone(a: int, b: int, d: int)
    requires a <= b && d > 0
    ensures a / d <= b / d
  {
    var qa, qb := a / d, b / d;
    assert a == qa * d + a % d;
    assert b == qb * d + b % d;
    if qa > qb {
      MulAtLeast(qa - qb, d);
    }
  }

  /** The quotient of a dividend below `k * d` is below `k`. */
  lemma DivBelow(a: int, d: int, k: int)
    requires 0 <= a < k * d && d > 0
    ensures 0 <= a / d < k
  {
    var q := a / d;
    assert a == q * d + a % d;
    if q >= k {
      MulMonotone(k, d, q, d);
    }
    if q < 0 {
      MulAtLeast(-q, d);
    }
  }

  /** Products of nonnegative, ordered factors are ordered. */
  lemma MulMonotone(a: int, b: int, c: int, d: int)
    requires 0 <= a <= c && 0 <= b <= d
    ensures a * b <= c * d
  {
    assert a * b <= c * b by { assert (c - a) * b >= 0; }
    assert c * b <= c * d by { assert c * (d - b) >= 0; }
  }
}
