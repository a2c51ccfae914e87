/** The statistics of the insight engine: `pearsonCorrelation`,
    `getConfidence` and `getDirection`.

    Every series the engine correlates holds integers (counts and 1..5
    levels), so the coefficient is kept exactly as a pair `Corr(num, den)`
    standing for r = num / sqrt(den): the square root is never taken and
    every threshold test compares squares instead. */
module Pearson {

  function Sum(xs: seq<int>): int {
    if |xs| == 0 then 0 else Sum(xs[..|xs| - 1]) + xs[|xs| - 1]
  }

  function SumSq(xs: seq<int>): int {
    if |xs| == 0 then 0 else SumSq(xs[..|xs| - 1]) + xs[|xs| - 1] * xs[|xs| - 1]
  }

  function SumProd(xs: seq<int>, ys: seq<int>): int
    requires |xs| == |ys|
  {
    if |xs| == 0 then 0
    else SumProd(xs[..|xs| - 1], ys[..|ys| - 1]) + xs[|xs| - 1] * ys[|ys| - 1]
  }

  /** n * sum(x^2) - (sum x)^2: n^2 times the population variance. */
  function Spread(xs: seq<int>): int {
    |xs| * SumSq(xs) - Sum(xs) * Sum(xs)
  }

  /** n * sum(xy) - sum(x) * sum(y): the numerator of r. */
  function CoSpread(xs: seq<int>, ys: seq<int>): int
    requires |xs| == |ys|
  {
    |xs| * SumProd(xs, ys) - Sum(xs) * Sum(ys)
  }

  predicate IsConstant(xs: seq<int>) {
    forall i :: 0 <= i < |xs| ==> xs[i] == xs[0]
  }

  /** The correlation coefficient r = num / sqrt(den); `den == 0` encodes the
      literal 0 the source returns in its degenerate cases. */
  datatype Corr = Corr(num: int, den: int)

  /** r squared, as an exact rational. */
  function RSquared(c: Corr): real {
    if c.den == 0 then 0.0 else (c.num * c.num) as real / c.den as real
  }

  /** pearsonCorrelation. */
  function Correlation(xs: seq<int>, ys: seq<int>): (c: Corr)
    ensures c.den >= 0
    ensures c.den == 0 <==> |xs| != |ys| || |xs| < 2 || IsConstant(xs) || IsConstant(ys)
    ensures c.den == 0 ==> c.num == 0
    ensures c.den > 0 ==> c.num == CoSpread(xs, ys) && c.den == Spread(xs) * Spread(ys)
  {
    if |xs| != |ys| || |xs| < 2 then Corr(0, 0)
    else
      SpreadZeroIffConstant(xs);
      SpreadZeroIffConstant(ys);
      var d := Spread(xs) * Spread(ys);
      if d == 0 then Corr(0, 0) else Corr(CoSpread(xs, ys), d)
  }

  // ----- the spread is a sum of squares -----

  /** sum over i of (x_i - a)^2. */
  function SqDist(xs: seq<int>, a: int): (r: int)
    ensures r >= 0
  {
    if |xs| == 0 then 0
    else SqDist(xs[..|xs| - 1], a) + (xs[|xs| - 1] - a) * (xs[|xs| - 1] - a)
  }

  lemma {:induction false} SqDistExpanded(xs: seq<int>, a: int)
    ensures SqDist(xs, a) == SumSq(xs) - 2 * a * Sum(xs) + |xs| * a * a
  {
    if |xs| > 0 {
      var init := xs[..|xs| - 1];
      SqDistExpanded(init, a);
      SqDistStep(SqDist(init, a), SumSq(init), Sum(init), |init|, xs[|xs| - 1], a);
    }
  }

  lemma SqDistStep(d: int, q: int, s: int, n: int, z: int, a: int)
    requires d == q - 2 * a * s + n * a * a
    ensures d + (z - a) * (z - a) == (q + z * z) - 2 * a * (s + z) + (n + 1) * a * a
  {
  }

  /** Appending `a` grows the spread by the squared distances from `a`. */
  lemma SpreadAppend(xs: seq<int>, a: int)
    ensures Spread(xs + [a]) == Spread(xs) + SqDist(xs, a)
  {
    var ys := xs + [a];
    assert ys[..|ys| - 1] == xs;
    SqDistExpanded(xs, a);
    SpreadStep(|xs|, Sum(xs), SumSq(xs), a);
  }

  lemma SpreadStep(n: int, s: int, q: int, a: int)
    ensures (n + 1) * (q + a * a) - (s + a) * (s + a) == (n * q - s * s) + (q - 2 * a * s + n * a * a)
  {
  }

  /** The spread is never negative, and it is zero exactly for a constant
      series: this is why the source's denominator is zero only for a
      constant series and never the square root of a negative number. */
  lemma {:induction false} SpreadZeroIffConstant(xs: seq<int>)
    ensures Spread(xs) >= 0
    ensures Spread(xs) == 0 <==> IsConstant(xs)
  {
    if |xs| > 0 {
      var init := xs[..|xs| - 1];
      var a := xs[|xs| - 1];
      assert xs == init + [a];
      SpreadZeroIffConstant(init);
      SpreadAppend(init, a);
      if IsConstant(xs) {
        assert IsConstant(init);
        if |init| > 0 {
          assert forall i :: 0 <= i < |init| ==> init[i] == xs[i] == a;
          SqDistOfConstant(init, a);
        }
      }
      if Spread(xs) == 0 {
        assert IsConstant(init) && SqDist(init, a) == 0;
        if |init| > 0 {
          SqDistZero(init, a);
          assert forall i :: 0 <= i < |xs| ==> xs[i] == a;
        }
      }
    }
  }

  lemma {:induction false} SqDistOfConstant(xs: seq<int>, a: int)
    requires forall i :: 0 <= i < |xs| ==> xs[i] == a
    ensures SqDist(xs, a) == 0
  {
    if |xs| > 0 {
      SqDistOfConstant(xs[..|xs| - 1], a);
    }
  }

  lemma {:induction false} SqDistZero(xs: seq<int>, a: int)
    requires SqDist(xs, a) == 0
    ensures forall i :: 0 <= i < |xs| ==> xs[i] == a
  {
    if |xs| > 0 {
      var init := xs[..|xs| - 1];
      var z := xs[|xs| - 1];
      SquareNonNegative(z - a);
      assert SqDist(xs, a) == SqDist(init, a) + (z - a) * (z - a);
      SquareZero(z - a);
      SqDistZero(init, a);
      forall i | 0 <= i < |xs|
        ensures xs[i] == a
      {
        if i < |xs| - 1 {
          assert xs[i] == init[i];
        }
      }
    }
  }

  lemma SquareNonNegative(d: int)
    ensures d * d >= 0
  {
  }

  lemma SquareZero(d: int)
    requires d * d == 0
    ensures d == 0
  {
  }

  // ----- threshold tests on |r| -----

  /** |r| >= p / q, decided on integers: q^2 num^2 >= p^2 den. */
  predicate AtLeast(c: Corr, p: nat, q: nat) {
    c.den > 0 && q * q * c.num * c.num >= p * p * c.den
  }

  /** The integer test agrees with comparing r^2 against (p/q)^2. */
  lemma AtLeastMeansRSquared(c: Corr, p: nat, q: nat)
    requires c.den >= 0 && q > 0
    ensures AtLeast(c, p, q) <==> c.den > 0 && RSquared(c) >= (p as real / q as real) * (p as real / q as real)
  {
    if c.den > 0 {
      var n2 := (c.num * c.num) as real;
      var d := c.den as real;
      var t := p as real / q as real;
      assert t * t == (p * p) as real / (q * q) as real;
      assert RSquared(c) >= t * t <==> n2 / d >= (p * p) as real / (q * q) as real;
      assert n2 / d >= (p * p) as real / (q * q) as real <==> n2 * (q * q) as real >= (p * p) as real * d by {
        RatioCompare(n2, d, (p * p) as real, (q * q) as real);
      }
      assert (q * q * c.num * c.num) as real == n2 * (q * q) as real;
      assert (p * p * c.den) as real == (p * p) as real * d;
    }
  }

  lemma RatioCompare(a: real, b: real, c: real, d: real)
    requires b > 0.0 && d > 0.0
    ensures a / b >= c / d <==> a * d >= c * b
  {
    assert a / b * (b * d) == a * d;
    assert c / d * (b * d) == c * b;
    if a / b >= c / d {
      assert a / b * (b * d) >= c / d * (b * d);
    } else {
      assert a / b * (b * d) < c / d * (b * d);
    }
  }

  /** CORRELATION_THRESHOLD: |r| >= 0.3. */
  predicate Significant(c: Corr) { AtLeast(c, 3, 10) }

  predicate IsPositive(c: Corr) { c.den > 0 && c.num > 0 }

  datatype Confidence = Low | Medium | High

  /** getConfidence. */
  function ConfidenceOf(c: Corr, dataPoints: int): (r: Confidence)
    requires c.den >= 0
    ensures r == High <==> dataPoints >= 20 && c.den > 0 && RSquared(c) >= 0.36
    ensures r == Medium <==> !(dataPoints >= 20 && c.den > 0 && RSquared(c) >= 0.36)
                             && dataPoints >= 10 && c.den > 0 && RSquared(c) >= 0.16
  {
    AtLeastMeansRSquared(c, 3, 5);
    AtLeastMeansRSquared(c, 2, 5);
    if dataPoints >= 20 && AtLeast(c, 3, 5) then High
    else if dataPoints >= 10 && AtLeast(c, 2, 5) then Medium
    else Low
  }

  datatype Direction = Positive | Negative | Neutral | Pattern

  /** getDirection: r >= 0.3 is positive, r <= -0.3 negative. */
  function DirectionOf(c: Corr): (r: Direction)
    requires c.den >= 0
    ensures r != Pattern
    ensures r == Positive <==> c.num > 0 && c.den > 0 && RSquared(c) >= 0.09
    ensures r == Negative <==> c.num < 0 && c.den > 0 && RSquared(c) >= 0.09
  {
    AtLeastMeansRSquared(c, 3, 10);
    if Significant(c) && c.num > 0 then Positive
    else if Significant(c) && c.num < 0 then Negative
    else Neutral
  }

  /** Once the 0.3 threshold is met the direction is never neutral and
      agrees with the sign of r. */
  lemma SignificantDirection(c: Corr)
    requires c.den >= 0 && Significant(c)
    ensures DirectionOf(c) == (if c.num > 0 then Positive else Negative)
  {
  }

  // ----- properties of the coefficient -----

  /** Two encodings of the same real coefficient. */
  predicate SameR(c1: Corr, c2: Corr) {
    (c1.den == 0 && c2.den == 0)
    || (c1.den > 0 && c2.den > 0
        && (c1.num > 0 <==> c2.num > 0) && (c1.num < 0 <==> c2.num < 0)
        && c1.num * c1.num * c2.den == c2.num * c2.num * c1.den)
  }

  /** A non-constant series correlates perfectly with itself: r = 1. */
  lemma SelfCorrelation(xs: seq<int>)
    requires |xs| >= 2 && !IsConstant(xs)
    ensures Correlation(xs, xs).num > 0
    ensures Correlation(xs, xs).num * Correlation(xs, xs).num == Correlation(xs, xs).den
  {
    SumProdSelf(xs);
    SpreadZeroIffConstant(xs);
  }

  lemma {:induction false} SumProdSelf(xs: seq<int>)
    ensures SumProd(xs, xs) == SumSq(xs)
  {
    if |xs| > 0 {
      SumProdSelf(xs[..|xs| - 1]);
    }
  }

  lemma {:induction false} SumProdSymmetric(xs: seq<int>, ys: seq<int>)
    requires |xs| == |ys|
    ensures SumProd(xs, ys) == SumProd(ys, xs)
  {
    if |xs| > 0 {
      SumProdSymmetric(xs[..|xs| - 1], ys[..|ys| - 1]);
    }
  }

  lemma CorrelationSymmetric(xs: seq<int>, ys: seq<int>)
    ensures Correlation(xs, ys) == Correlation(ys, xs)
  {
    if |xs| == |ys| {
      SumProdSymmetric(xs, ys);
    }
  }

  function Affine(xs: seq<int>, a: int, b: int): (r: seq<int>)
    ensures |r| == |xs|
  {
    seq(|xs|, i requires 0 <= i < |xs| => a * xs[i] + b)
  }

  lemma AffinePrefix(xs: seq<int>, a: int, b: int)
    requires |xs| > 0
    ensures Affine(xs, a, b)[..|xs| - 1] == Affine(xs[..|xs| - 1], a, b)
  {
  }

  lemma {:induction false} AffineSums(xs: seq<int>, ys: seq<int>, a: int, b: int)
    requires |xs| == |ys|
    ensures Sum(Affine(xs, a, b)) == a * Sum(xs) + |xs| * b
    ensures SumSq(Affine(xs, a, b)) == a * a * SumSq(xs) + 2 * a * b * Sum(xs) + |xs| * b * b
    ensures SumProd(Affine(xs, a, b), ys) == a * SumProd(xs, ys) + b * Sum(ys)
  {
    if |xs| > 0 {
      var n := |xs|;
      var xi := xs[..n - 1];
      var yi := ys[..n - 1];
      AffinePrefix(xs, a, b);
      AffineSums(xi, yi, a, b);
      var ax := Affine(xs, a, b);
      assert ax[n - 1] == a * xs[n - 1] + b;
      AffineStep(Sum(xi), SumSq(xi), SumProd(xi, yi), Sum(yi), n - 1, xs[n - 1], ys[n - 1], a, b);
    }
  }

  lemma AffineStep(s: int, q: int, p: int, t: int, n: int, z: int, w: int, a: int, b: int)
    ensures (a * s + n * b) + (a * z + b) == a * (s + z) + (n + 1) * b
    ensures (a * a * q + 2 * a * b * s + n * b * b) + (a * z + b) * (a * z + b)
         == a * a * (q + z * z) + 2 * a * b * (s + z) + (n + 1) * b * b
    ensures (a * p + b * t) + (a * z + b) * w == a * (p + z * w) + b * (t + w)
  {
  }

  /** Pearson's r is unchanged by a positive affine rescaling of x:
      r(a x + b, y) = r(x, y) for a > 0. */
  lemma AffineInvariance(xs: seq<int>, ys: seq<int>, a: int, b: int)
    requires a > 0
    ensures SameR(Correlation(Affine(xs, a, b), ys), Correlation(xs, ys))
  {
    if |xs| == |ys| && |xs| >= 2 {
      var ax := Affine(xs, a, b);
      AffineSums(xs, ys, a, b);
      AffineSpreads(|xs|, Sum(xs), SumSq(xs), SumProd(xs, ys), Sum(ys), a, b);
      assert Spread(ax) == a * a * Spread(xs);
      assert CoSpread(ax, ys) == a * CoSpread(xs, ys);
      SpreadZeroIffConstant(xs);
      SpreadZeroIffConstant(ax);
      var c1 := Correlation(ax, ys);
      var c2 := Correlation(xs, ys);
      if c2.den > 0 {
        ScaledSameR(c2.num, c2.den, Spread(xs), Spread(ys), a);
      }
    }
  }

  lemma AffineSpreads(n: int, s: int, q: int, p: int, t: int, a: int, b: int)
    ensures n * (a * a * q + 2 * a * b * s + n * b * b) - (a * s + n * b) * (a * s + n * b)
         == a * a * (n * q - s * s)
    ensures n * (a * p + b * t) - (a * s + n * b) * t == a * (n * p - s * t)
  {
    SquareSpread(n, s, q, a, b);
    assert n * (a * p + b * t) == a * (n * p) + n * b * t;
    assert (a * s + n * b) * t == a * (s * t) + n * b * t;
  }

  lemma SquareSpread(n: int, s: int, q: int, a: int, b: int)
    ensures n * (a * a * q + 2 * a * b * s + n * b * b) - (a * s + n * b) * (a * s + n * b)
         == a * a * (n * q - s * s)
  {
    var u := a * s;
    var v := n * b;
    SquareOfSum(u, v);
    assert u * u == a * a * (s * s);
    assert u * v == n * (a * b * s);
    assert v * v == n * (n * b * b);
    assert n * (a * a * q + 2 * a * b * s + n * b * b) == n * (a * a * q) + 2 * (n * (a * b * s)) + n * (n * b * b);
    assert n * (a * a * q) == a * a * (n * q);
    assert a * a * (n * q) - a * a * (s * s) == a * a * (n * q - s * s);
  }

  lemma SquareOfSum(u: int, v: int)
    ensures (u + v) * (u + v) == u * u + 2 * (u * v) + v * v
  {
  }

  lemma ScaledSameR(num: int, den: int, dx: int, dy: int, a: int)
    requires a > 0 && den > 0 && den == dx * dy && dx >= 0
    ensures SameR(Corr(a * num, (a * a * dx) * dy), Corr(num, den))
  {
    assert (a * a * dx) * dy == a * a * den;
    assert (a * num) * (a * num) == a * a * (num * num);
    assert a * num > 0 <==> num > 0;
    assert a * num < 0 <==> num < 0;
  }
}
