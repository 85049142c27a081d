/** Integer functions and laws that several modules need. */
module Numbers {
  function Min(a: int, b: int): int {
    if a < b then a else b
  }

  function Max(a: int, b: int): int {
    if a < b then b else a
  }

  /** `ceil(a / b)`. */
  function CeilDiv(a: int, b: int): int
    requires b > 0
  {
    (a + b - 1) / b
  }

  lemma MulStep(m: int, d: int)
    ensures (m + 1) * d == m * d + d
  {
  }

  lemma {:induction false} Once(d: int, b: int)
    requires d >= 1 && b > 0
    ensures d * b >= b
  {
    if d > 1 {
      Once(d - 1, b);
      MulStep(d - 1, b);
    }
  }

  lemma MulGap(x: int, y: int, b: int)
    requires x < y && b > 0
    ensures y * b >= x * b + b
  {
    assert y * b == x * b + (y - x) * b;
    Once(y - x, b);
  }

  lemma MulMono(x: int, y: int, b: int)
    requires x <= y && b > 0
    ensures x * b <= y * b
  {
    if x < y { MulGap(x, y, b); }
  }

  lemma DivUnique(a: int, b: int, q: int, r: int)
    requires b > 0 && a == q * b + r && 0 <= r < b
    ensures a / b == q
  {
    var p, s := a / b, a % b;
    assert a == p * b + s;
    if p < q { MulGap(p, q, b); } else if q < p { MulGap(q, p, b); }
  }

  lemma DivAtLeast(a: int, m: int, d: int)
    requires d > 0 && a >= m * d
    ensures a / d >= m
  {
    var q := a / d;
    if q < m { MulGap(q, m, d); }
  }

  lemma CeilIs(a: int, b: int, q: int)
    requires b > 0 && (q - 1) * b < a <= q * b
    ensures CeilDiv(a, b) == q
  {
    var r := a + b - 1 - q * b;
    assert a + b - 1 == q * b + r && 0 <= r < b by { MulStep(q - 1, b); }
    DivUnique(a + b - 1, b, q, r);
  }

  lemma CeilAtLeast(a: int, b: int)
    requires b > 0
    ensures CeilDiv(a, b) * b >= a
  {
    var q, r := (a + b - 1) / b, (a + b - 1) % b;
    assert a + b - 1 == b * q + r;
  }
}
