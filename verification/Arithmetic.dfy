/** Facts about products and floor division that the solver does not find by itself. */
module Arithmetic {
  function Min(x: int, y: int): int { if x < y then x else y }
  function Max(x: int, y: int): int { if x > y then x else y }
  function Clamp(x: int, lo: int, hi: int): int { Min(Max(x, lo), hi) }
  function Abs(x: int): nat { if x < 0 then -x else x }

  ghost predicate Increasing(s: seq<int>) {
    forall i, j | 0 <= i < j < |s| :: s[i] < s[j]
  }

  lemma MulOrder(m: int, n: int, k: int)
    requires m <= n && k >= 0
    ensures m * k <= n * k
  {
    assert (n - m) * k >= 0;
  }

  lemma DivOrder(x: int, y: int, d: int)
    requires x <= y && d > 0
    ensures x / d <= y / d
  {
    if x / d > y / d {
      MulOrder(y / d + 1, x / d, d);
    }
  }

  lemma FloorBetween(x: int, d: int, k: int)
    requires d > 0
    ensures k <= x / d <==> k * d <= x
  {
    if k <= x / d {
      MulOrder(k, x / d, d);
    } else {
      MulOrder(x / d + 1, k, d);
    }
  }

  lemma QuotientUnique(x: int, d: int, q: int, r: int)
    requires d > 0 && 0 <= r < d && x == d * q + r
    ensures x / d == q
  {
    var p := x / d;
    if p < q {
      MulOrder(p + 1, q, d);
    } else if q < p {
      MulOrder(q + 1, p, d);
    }
  }

  lemma ShiftQuotient(x: int, k: int, d: int)
    requires d > 0
    ensures (x + k * d) / d == x / d + k
  {
    var q := x / d;
    assert x + k * d == d * (q + k) + x % d;
    QuotientUnique(x + k * d, d, q + k, x % d);
  }

  lemma RealQuotient(x: real, d: real)
    requires d > 0.0 && -d <= x <= d
    ensures -1.0 <= x / d <= 1.0
    ensures x / d == 1.0 <==> x == d
  {
    var q := x / d;
    assert q * d == x;
    if q > 1.0 {
      StrictOrder(1.0, q, d);
    }
    if q < -1.0 {
      StrictOrder(q, -1.0, d);
    }
    if q < 1.0 {
      StrictOrder(q, 1.0, d);
    }
  }

  lemma StrictOrder(p: real, q: real, d: real)
    requires p < q && d > 0.0
    ensures p * d < q * d
  {
    assert (q - p) * d > 0.0;
  }
}
