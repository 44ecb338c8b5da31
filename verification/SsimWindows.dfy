/** The SSIM of one window (`_ssim_end`, `_block_sums` of `scripts/parity/compare.py`): the block
    sums, the Cauchy-Schwarz bounds and when the value is 1. */
module SsimWindows {
  import opened Arithmetic

  const C1: int := 416
  const C2: int := 235963

  // --- sums over samples ----------------------------------------------------------------------------

  /** One pair of samples. */
  type Sample = (int, int)

  /** `s1`, `s2`, `ss`, `s12` of some samples. */
  datatype Sums = Sums(s1: int, s2: int, ss: int, s12: int)

  const ZERO := Sums(0, 0, 0, 0)

  function AddSums(p: Sums, q: Sums): Sums {
    Sums(p.s1 + q.s1, p.s2 + q.s2, p.ss + q.ss, p.s12 + q.s12)
  }

  function SumsOf(v: Sample): Sums {
    Sums(v.0, v.1, v.0 * v.0 + v.1 * v.1, v.0 * v.1)
  }

  function Total(l: seq<Sample>): Sums {
    if l == [] then ZERO else AddSums(Total(l[..|l| - 1]), SumsOf(l[|l| - 1]))
  }

  lemma {:induction false} TotalConcat(a: seq<Sample>, b: seq<Sample>)
    ensures Total(a + b) == AddSums(Total(a), Total(b))
    decreases |b|
  {
    if b == [] {
      assert a + b == a;
    } else {
      assert (a + b)[..|a + b| - 1] == a + b[..|b| - 1];
      TotalConcat(a, b[..|b| - 1]);
    }
  }

  // --- Cauchy-Schwarz ---------------------------------------------------------------------------------

  /** A linear form of each pair: `a - b` or `a + b`. */
  function Form(v: Sample, sign: int): int { v.0 + sign * v.1 }

  function FormSum(l: seq<Sample>, sign: int): int {
    if l == [] then 0 else FormSum(l[..|l| - 1], sign) + Form(l[|l| - 1], sign)
  }

  function FormSquares(l: seq<Sample>, sign: int): int {
    if l == [] then 0
    else FormSquares(l[..|l| - 1], sign) + Form(l[|l| - 1], sign) * Form(l[|l| - 1], sign)
  }

  /** The spread around any value `x` is not negative. */
  lemma {:induction false} SpreadAround(l: seq<Sample>, sign: int, x: int)
    ensures FormSquares(l, sign) - 2 * x * FormSum(l, sign) + |l| * (x * x) >= 0
    decreases |l|
  {
    if l != [] {
      var d := Form(l[|l| - 1], sign);
      SpreadAround(l[..|l| - 1], sign, x);
      SquareOfDifference(d, x);
      SplitProducts(FormSum(l[..|l| - 1], sign), d, x, |l| - 1);
    }
  }

  lemma SquareOfDifference(d: int, x: int)
    ensures d * d - 2 * x * d + x * x >= 0
  {
    assert (d - x) * (d - x) == d * d - 2 * x * d + x * x;
    SquareIsNatural(d - x);
  }

  lemma SquareIsNatural(x: int)
    ensures x * x >= 0 && (x * x == 0 ==> x == 0)
  {
  }

  lemma SplitProducts(s: int, d: int, x: int, n: int)
    ensures 2 * x * (s + d) == 2 * x * s + 2 * x * d
    ensures (n + 1) * (x * x) == n * (x * x) + x * x
  {
  }

  /** `n * sum of squares >= (sum)^2`. */
  lemma {:induction false} CauchySchwarz(l: seq<Sample>, sign: int)
    ensures |l| * FormSquares(l, sign) >= FormSum(l, sign) * FormSum(l, sign)
    decreases |l|
  {
    if l != [] {
      var front, d := l[..|l| - 1], Form(l[|l| - 1], sign);
      CauchySchwarz(front, sign);
      SpreadAround(front, sign, d);
      Expand(|front|, FormSquares(front, sign), FormSum(front, sign), d);
    }
  }

  lemma Expand(n: int, q: int, s: int, d: int)
    ensures (n + 1) * (q + d * d) - (s + d) * (s + d) == (n * q - s * s) + (q - 2 * d * s + n * (d * d))
  {
    assert (n + 1) * (q + d * d) == n * q + n * (d * d) + q + d * d;
    assert (s + d) * (s + d) == s * s + 2 * (s * d) + d * d;
    assert 2 * d * s == 2 * (s * d);
  }

  /** The forms in terms of the four sums. */
  lemma {:induction false} FormsFromTotal(l: seq<Sample>, sign: int)
    requires sign == 1 || sign == -1
    ensures FormSum(l, sign) == Total(l).s1 + sign * Total(l).s2
    ensures FormSquares(l, sign) == Total(l).ss + 2 * sign * Total(l).s12
    decreases |l|
  {
    if l != [] {
      FormsFromTotal(l[..|l| - 1], sign);
      var v := l[|l| - 1];
      assert Form(v, 1) * Form(v, 1) == v.0 * v.0 + v.1 * v.1 + 2 * (v.0 * v.1);
      assert Form(v, -1) * Form(v, -1) == v.0 * v.0 + v.1 * v.1 - 2 * (v.0 * v.1);
    }
  }

  lemma {:induction false} NoSquaresNoDifference(l: seq<Sample>)
    ensures FormSquares(l, -1) >= 0
    ensures FormSquares(l, -1) == 0 ==> forall k | 0 <= k < |l| :: l[k].0 == l[k].1
    decreases |l|
  {
    if l != [] {
      NoSquaresNoDifference(l[..|l| - 1]);
      SquareIsNatural(Form(l[|l| - 1], -1));
      if FormSquares(l, -1) == 0 {
        forall k | 0 <= k < |l| ensures l[k].0 == l[k].1 {
          assert k == |l| - 1 || l[k] == l[..|l| - 1][k];
        }
      }
    }
  }

  // --- one window -------------------------------------------------------------------------------------

  function Variance(s: Sums): int { s.ss * 64 - s.s1 * s.s1 - s.s2 * s.s2 }
  function Covariance(s: Sums): int { s.s12 * 64 - s.s1 * s.s2 }

  function Numerator(s: Sums): int { (2 * s.s1 * s.s2 + C1) * (2 * Covariance(s) + C2) }
  function Denominator(s: Sums): int { (s.s1 * s.s1 + s.s2 * s.s2 + C1) * (Variance(s) + C2) }

  ghost predicate Samples(l: seq<Sample>) {
    |l| == 64 && forall k | 0 <= k < |l| :: 0 <= l[k].0 < 256 && 0 <= l[k].1 < 256
  }

  lemma {:induction false} NaturalSums(l: seq<Sample>)
    requires forall k | 0 <= k < |l| :: 0 <= l[k].0 && 0 <= l[k].1
    ensures Total(l).s1 >= 0 && Total(l).s2 >= 0
    decreases |l|
  {
    if l != [] {
      NaturalSums(l[..|l| - 1]);
    }
  }

  lemma SquareForms(x: int, y: int)
    ensures (x - y) * (x - y) == x * x + y * y - 2 * (x * y)
    ensures (x + y) * (x + y) == x * x + y * y + 2 * (x * y)
    ensures 2 * x * y == 2 * (x * y)
  {
  }

  /** `2 |cov| <= var`, from Cauchy-Schwarz for the difference and for the sum of the samples. */
  lemma CovarianceBound(l: seq<Sample>)
    requires Samples(l)
    ensures -Variance(Total(l)) <= 2 * Covariance(Total(l)) <= Variance(Total(l))
    ensures Variance(Total(l)) - 2 * Covariance(Total(l))
         == 64 * FormSquares(l, -1) - FormSum(l, -1) * FormSum(l, -1)
  {
    FormInSums(l, -1);
    FormInSums(l, 1);
  }

  lemma FormInSums(l: seq<Sample>, sign: int)
    requires |l| == 64 && (sign == 1 || sign == -1)
    ensures Variance(Total(l)) + 2 * sign * Covariance(Total(l))
         == 64 * FormSquares(l, sign) - FormSum(l, sign) * FormSum(l, sign) >= 0
  {
    CauchySchwarz(l, sign);
    FormsFromTotal(l, sign);
    SquareForms(Total(l).s1, Total(l).s2);
  }

  /** For any samples at all the denominator is positive and at least the numerator in size. */
  lemma WindowBounds(l: seq<Sample>)
    requires Samples(l)
    ensures Denominator(Total(l)) > 0
    ensures -Denominator(Total(l)) <= Numerator(Total(l)) <= Denominator(Total(l))
  {
    var s := Total(l);
    NaturalSums(l);
    CovarianceBound(l);
    SquareIsNatural(s.s1 - s.s2);
    SquareIsNatural(s.s1);
    SquareIsNatural(s.s2);
    SquareForms(s.s1, s.s2);
    MulOrder(0, s.s1, s.s2);
    ProductBound(2 * s.s1 * s.s2 + C1, s.s1 * s.s1 + s.s2 * s.s2 + C1, 2 * Covariance(s) + C2, Variance(s) + C2);
  }

  lemma ProductBound(p: int, a: int, q: int, b: int)
    requires 0 < p <= a && 0 < b && -b <= q <= b
    ensures a * b > 0 && -(a * b) <= p * q <= a * b
  {
    MulOrder(p, a, b);
    MulOrder(q, b, p);
    MulOrder(-b, q, p);
    MulOrder(1, a, b);
  }

  /** The value is 1 exactly for identical windows. */
  lemma OneExactlyWhenEqual(l: seq<Sample>)
    requires Samples(l)
    ensures Numerator(Total(l)) == Denominator(Total(l)) <==> forall k | 0 <= k < |l| :: l[k].0 == l[k].1
  {
    if Numerator(Total(l)) == Denominator(Total(l)) {
      OneMeansEqual(l);
    }
    if forall k | 0 <= k < |l| :: l[k].0 == l[k].1 {
      EqualMeansOne(l);
    }
  }

  lemma OneMeansEqual(l: seq<Sample>)
    requires Samples(l) && Numerator(Total(l)) == Denominator(Total(l))
    ensures forall k | 0 <= k < |l| :: l[k].0 == l[k].1
  {
    var s := Total(l);
    NaturalSums(l);
    CovarianceBound(l);
    SquareIsNatural(s.s1 - s.s2);
    SquareForms(s.s1, s.s2);
    MulOrder(0, s.s1, s.s2);
    EqualProducts(2 * s.s1 * s.s2 + C1, s.s1 * s.s1 + s.s2 * s.s2 + C1, 2 * Covariance(s) + C2, Variance(s) + C2);
    NoSpreadNoDifference(l);
  }

  lemma NoSpreadNoDifference(l: seq<Sample>)
    requires Samples(l) && Variance(Total(l)) == 2 * Covariance(Total(l)) && Total(l).s1 == Total(l).s2
    ensures forall k | 0 <= k < |l| :: l[k].0 == l[k].1
  {
    CovarianceBound(l);
    FormsFromTotal(l, -1);
    NoSquaresNoDifference(l);
  }

  lemma EqualProducts(p: int, a: int, q: int, b: int)
    requires 0 < p <= a && 0 < b && -b <= q <= b && p * q == a * b
    ensures p == a && q == b
  {
    MulOrder(q, b, p);
    if p < a {
      MulOrder(p + 1, a, b);
    }
    if q < b {
      MulOrder(q + 1, b, p);
    }
  }

  lemma {:induction false} EqualTotals(l: seq<Sample>)
    requires forall k | 0 <= k < |l| :: l[k].0 == l[k].1
    ensures Total(l).s1 == Total(l).s2 && Total(l).ss == 2 * Total(l).s12
    decreases |l|
  {
    if l != [] {
      EqualTotals(l[..|l| - 1]);
    }
  }

  lemma EqualMeansOne(l: seq<Sample>)
    requires forall k | 0 <= k < |l| :: l[k].0 == l[k].1
    ensures Numerator(Total(l)) == Denominator(Total(l))
  {
    EqualTotals(l);
    var s := Total(l);
    EqualSums(s.s1, s.ss, s.s12);
  }

  lemma EqualSums(x: int, ss: int, s12: int)
    requires ss == 2 * s12
    ensures var s := Sums(x, x, ss, s12); Numerator(s) == Denominator(s)
  {
    var s := Sums(x, x, ss, s12);
    SameProducts(2 * x * x + C1, x * x + x * x + C1, 2 * Covariance(s) + C2, Variance(s) + C2);
  }

  lemma SameProducts(p: int, a: int, q: int, b: int)
    requires p == a && q == b
    ensures p * q == a * b
  {
  }

  /** `_ssim_end`, as an exact quotient. */
  function SsimEnd(s: Sums): real
    requires Denominator(s) != 0
  {
    Numerator(s) as real / Denominator(s) as real
  }

  lemma SsimRange(l: seq<Sample>)
    requires Samples(l)
    ensures Denominator(Total(l)) > 0
    ensures -1.0 <= SsimEnd(Total(l)) <= 1.0
    ensures SsimEnd(Total(l)) == 1.0 <==> forall k | 0 <= k < |l| :: l[k].0 == l[k].1
  {
    WindowBounds(l);
    OneExactlyWhenEqual(l);
    QuotientRange(Numerator(Total(l)), Denominator(Total(l)));
  }

  lemma QuotientRange(n: int, d: int)
    requires d > 0 && -d <= n <= d
    ensures -1.0 <= n as real / d as real <= 1.0
    ensures n as real / d as real == 1.0 <==> n == d
  {
    RealQuotient(n as real, d as real);
  }

  // --- the value in numbers -----------------------------------------------------------------------------

  function Over(l: seq<Sample>, f: (int, int) -> int): int {
    if l == [] then 0 else Over(l[..|l| - 1], f) + f(l[|l| - 1].0, l[|l| - 1].1)
  }

  function First(x: int, y: int): int { x }
  function Second(x: int, y: int): int { y }
  function Squares(x: int, y: int): int { x * x + y * y }
  function Product(x: int, y: int): int { x * y }

  lemma {:induction false} TotalsOver(l: seq<Sample>)
    ensures Total(l) == Sums(Over(l, First), Over(l, Second), Over(l, Squares), Over(l, Product))
    decreases |l|
  {
    if l != [] {
      TotalsOver(l[..|l| - 1]);
    }
  }

  /** The value of any 64 pairs of bytes, from four sums over them. */
  lemma ValueInNumbers(l: seq<Sample>)
    requires Samples(l)
    ensures var sx, sy, ss, sp := Over(l, First), Over(l, Second), Over(l, Squares), Over(l, Product);
            var d := (sx * sx + sy * sy + 416) * (64 * ss - sx * sx - sy * sy + 235963);
            && d > 0 && Denominator(Total(l)) > 0
            && SsimEnd(Total(l)) == ((2 * sx * sy + 416) * (2 * (64 * sp - sx * sy) + 235963)) as real / d as real
  {
    TotalsOver(l);
    WindowBounds(l);
    var s := Total(l);
    assert s.ss * 64 == 64 * s.ss && s.s12 * 64 == 64 * s.s12;
  }

  /** The two constants are (0.01 * 255)^2 * 64 and (0.03 * 255)^2 * 64 * 63, rounded. */
  lemma ConstantsAreRounded()
    ensures 2 * Abs(10000 * C1 - 255 * 255 * 64) <= 10000
    ensures 2 * Abs(10000 * C2 - 9 * 255 * 255 * 64 * 63) <= 10000
  {
  }

  lemma {:induction false} ConstantOver(l: seq<Sample>, f: (int, int) -> int, x: int, y: int)
    requires forall k | 0 <= k < |l| :: l[k] == (x, y)
    ensures Over(l, f) == |l| * f(x, y)
    decreases |l|
  {
    if l != [] {
      ConstantOver(l[..|l| - 1], f, x, y);
      assert |l| * f(x, y) == (|l| - 1) * f(x, y) + f(x, y);
    }
  }

  /** A window of one value against a window of another: only the means count. */
  lemma ConstantWindow(l: seq<Sample>, x: int, y: int)
    requires Samples(l) && forall k | 0 <= k < |l| :: l[k] == (x, y)
    ensures Denominator(Total(l)) > 0 && 4096 * (x * x + y * y) + 416 > 0
    ensures SsimEnd(Total(l)) == (8192 * x * y + 416) as real / (4096 * (x * x + y * y) + 416) as real
  {
    assert l[0] == (x, y);
    ConstantOver(l, First, x, y);
    ConstantOver(l, Second, x, y);
    ConstantOver(l, Squares, x, y);
    ConstantOver(l, Product, x, y);
    ValueInNumbers(l);
    ConstantTerms(x, y);
    Cancel(8192 * x * y + 416, 4096 * (x * x + y * y) + 416, 235963);
  }

  lemma ConstantTerms(x: int, y: int)
    requires 0 <= x && 0 <= y
    ensures var sx, sy, ss, sp := 64 * x, 64 * y, 64 * (x * x + y * y), 64 * (x * y);
            && 2 * sx * sy + 416 == 8192 * x * y + 416
            && sx * sx + sy * sy + 416 == 4096 * (x * x + y * y) + 416 > 0
            && 64 * ss - sx * sx - sy * sy == 0 && 64 * sp - sx * sy == 0
  {
    SquareIsNatural(x);
    SquareIsNatural(y);
    Scaled(x, y);
    Scaled(x, x);
    Scaled(y, y);
    Scaled(2 * x, y);
    assert 2 * (64 * x) == 64 * (2 * x);
  }

  lemma Scaled(x: int, y: int)
    ensures (64 * x) * (64 * y) == 4096 * (x * y)
  {
  }

  /** A common factor goes. */
  lemma Cancel(p: int, q: int, k: int)
    requires q > 0 && k > 0
    ensures q * k > 0 && (p * k) as real / (q * k) as real == p as real / q as real
  {
    MulOrder(1, q, k);
    var x := p as real / q as real;
    assert x * q as real == p as real;
    assert (p * k) as real == p as real * k as real && (q * k) as real == q as real * k as real;
    assert x * (q as real * k as real) == p as real * k as real;
    SameQuotient((p * k) as real, (q * k) as real, x);
  }

  lemma SameQuotient(p: real, q: real, x: real)
    requires q > 0.0 && x * q == p
    ensures p / q == x
  {
  }

  /** Where the means agree, only the spread counts. */
  lemma EqualMeansValue(l: seq<Sample>)
    requires Samples(l) && Over(l, First) == Over(l, Second)
    ensures var s := Over(l, First);
            var v, c := 64 * Over(l, Squares) - 2 * (s * s), 64 * Over(l, Product) - s * s;
            && v + 235963 > 0 && Denominator(Total(l)) > 0
            && SsimEnd(Total(l)) == (2 * c + 235963) as real / (v + 235963) as real
  {
    var s := Over(l, First);
    var v, c := 64 * Over(l, Squares) - 2 * (s * s), 64 * Over(l, Product) - s * s;
    SquareIsNatural(s);
    SpreadIs(l, s);
    ValueInNumbers(l);
    EqualMeansTerms(s, Over(l, Squares), Over(l, Product), v, c);
    Cancel(2 * c + 235963, v + 235963, 2 * (s * s) + 416);
  }

  lemma EqualMeansTerms(s: int, ss: int, sp: int, v: int, c: int)
    requires v == 64 * ss - 2 * (s * s) && c == 64 * sp - s * s
    ensures (2 * s * s + 416) * (2 * (64 * sp - s * s) + 235963) == (2 * c + 235963) * (2 * (s * s) + 416)
    ensures (s * s + s * s + 416) * (64 * ss - s * s - s * s + 235963) == (v + 235963) * (2 * (s * s) + 416)
  {
    var k := 2 * (s * s) + 416;
    assert 2 * s * s + 416 == k && s * s + s * s + 416 == k;
    Commutes(k, 2 * c + 235963);
    Commutes(k, v + 235963);
  }

  lemma Commutes(x: int, y: int)
    ensures x * y == y * x
  {
  }

  lemma SpreadIs(l: seq<Sample>, s: int)
    requires Samples(l) && s == Over(l, First) == Over(l, Second)
    ensures Variance(Total(l)) == 64 * Over(l, Squares) - 2 * (s * s) >= 0
  {
    TotalsOver(l);
    CovarianceBound(l);
  }
}
