/** Division with remainder, as facts about products. */
module Arithmetic {

  lemma Times(a: int, b: int, d: int)
    requires a <= b && d >= 0
    ensures a * d <= b * d
  {
  }

  lemma Distributes(a: int, b: int, d: int)
    ensures (a - b) * d == a * d - b * d
  {
  }

  lemma DivMod(x: int, d: int)
    requires d > 0
    ensures x == x / d * d + x % d && 0 <= x % d < d
  {
  }

  /** Quotient and remainder are unique. */
  lemma Unique(q: int, r: int, q': int, r': int, d: int)
    requires 0 <= r < d && 0 <= r' < d && q * d + r == q' * d + r'
    ensures q == q' && r == r'
  {
    if q < q' {
      Times(q + 1, q', d);
      Distributes(q, -1, d);
    } else if q' < q {
      Times(q' + 1, q, d);
      Distributes(q', -1, d);
    }
  }

  lemma Quotient(q: int, r: int, d: int)
    requires 0 <= r < d
    ensures (q * d + r) / d == q && (q * d + r) % d == r
  {
    var x := q * d + r;
    DivMod(x, d);
    Unique(x / d, x % d, q, r, d);
  }

  lemma ShiftBy(k: int, q: int, r: int, d: int)
    requires 0 <= r < d
    ensures (k * d + (q * d + r)) / d == k + q && (k * d + (q * d + r)) % d == r
  {
    assert (k + q) * d == k * d + q * d;
    Quotient(k + q, r, d);
  }

  /** Adding multiples of the divisor. */
  lemma Shift(k: int, x: int, d: int)
    requires d > 0
    ensures (k * d + x) / d == k + x / d && (k * d + x) % d == x % d
  {
    var q, r := x / d, x % d;
    DivMod(x, d);
    ShiftBy(k, q, r, d);
    assert k * d + x == k * d + (q * d + r);
  }
}
