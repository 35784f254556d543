/** The regularity measure: the sample standard deviation of the gaps between requests, in exact
    integer arithmetic. */
module Deviation {

  function Sum(g: seq<int>): int {
    if g == [] then 0 else Sum(g[..|g| - 1]) + g[|g| - 1]
  }

  function SumSq(g: seq<int>): int {
    if g == [] then 0 else SumSq(g[..|g| - 1]) + g[|g| - 1] * g[|g| - 1]
  }

  /** m * sum of squares - square of the sum: the sample variance times m * (m - 1). */
  function Spread(g: seq<int>): int {
    |g| * SumSq(g) - Sum(g) * Sum(g)
  }

  function SquaresTo(g: seq<int>, x: int): int {
    if g == [] then 0 else SquaresTo(g[..|g| - 1], x) + (g[|g| - 1] - x) * (g[|g| - 1] - x)
  }

  /** The squared differences of all pairs. */
  function PairSquares(g: seq<int>): int {
    if g == [] then 0 else PairSquares(g[..|g| - 1]) + SquaresTo(g[..|g| - 1], g[|g| - 1])
  }

  // ---------------------------------------------------------------- the definition it stands for

  /** The squared deviations from the mean s / m, each multiplied by m * m to stay an integer. */
  function ScaledDeviations(g: seq<int>, m: int, s: int): int {
    if g == [] then 0
    else ScaledDeviations(g[..|g| - 1], m, s) + (m * g[|g| - 1] - s) * (m * g[|g| - 1] - s)
  }

  /** The sample variance: the sum of the squared deviations from the mean divided by m - 1, here with the
      denominators of mean and variance multiplied out. */
  ghost predicate IsVariance(v: real, g: seq<int>) {
    |g| >= 2 && (|g| * |g| * (|g| - 1)) as real * v == ScaledDeviations(g, |g|, Sum(g)) as real
  }

  /** The sample standard deviation is its nonnegative root. */
  ghost predicate IsStdev(stdev: real, g: seq<int>) {
    stdev >= 0.0 && IsVariance(stdev * stdev, g)
  }

  lemma ExpandOne(m: int, s: int, x: int)
    ensures (m * x - s) * (m * x - s) == m * m * (x * x) - 2 * m * s * x + s * s
  {
    assert (m * x) * (m * x) == m * m * (x * x);
    assert (m * x) * s == m * s * x;
  }

  lemma ExpandStep(m: int, s: int, q: int, t: int, n: int, x: int)
    ensures m * m * q - 2 * m * s * t + n * (s * s) + (m * x - s) * (m * x - s)
         == m * m * (q + x * x) - 2 * m * s * (t + x) + (n + 1) * (s * s)
  {
    ExpandOne(m, s, x);
    assert m * m * (q + x * x) == m * m * q + m * m * (x * x);
    assert 2 * m * s * (t + x) == 2 * m * s * t + 2 * m * s * x;
  }

  lemma {:induction false} ExpandScaled(g: seq<int>, m: int, s: int)
    ensures ScaledDeviations(g, m, s) == m * m * SumSq(g) - 2 * m * s * Sum(g) + |g| * (s * s)
  {
    if g != [] {
      var p, x := g[..|g| - 1], g[|g| - 1];
      ExpandScaled(p, m, s);
      ExpandStep(m, s, SumSq(p), Sum(p), |p|, x);
    }
  }

  lemma AtTheMean(m: int, q: int, s: int)
    ensures m * m * q - 2 * m * s * s + m * (s * s) == m * (m * q - s * s)
  {
    assert m * m * q == m * (m * q);
    assert 2 * m * s * s == 2 * (m * (s * s));
    assert m * (m * q - s * s) == m * (m * q) - m * (s * s);
  }

  /** The scaled squared deviations from the mean are m times the spread. */
  lemma ScaledIsSpread(g: seq<int>)
    ensures ScaledDeviations(g, |g|, Sum(g)) == |g| * Spread(g)
  {
    ExpandScaled(g, |g|, Sum(g));
    AtTheMean(|g|, SumSq(g), Sum(g));
  }

  // ---------------------------------------------------------------- the pairwise form and the gap

  lemma {:induction false} ExpandSquares(g: seq<int>, x: int)
    ensures SquaresTo(g, x) == SumSq(g) - 2 * x * Sum(g) + |g| * x * x
  {
    if g != [] {
      var y := g[|g| - 1];
      ExpandSquares(g[..|g| - 1], x);
      assert (y - x) * (y - x) == y * y - 2 * x * y + x * x;
      assert 2 * x * (Sum(g[..|g| - 1]) + y) == 2 * x * Sum(g[..|g| - 1]) + 2 * x * y;
      assert |g| * x * x == (|g| - 1) * x * x + x * x;
    }
  }

  lemma Grow(m: int, q: int, s: int, x: int)
    ensures (m + 1) * (q + x * x) - (s + x) * (s + x) == (m * q - s * s) + (q - 2 * x * s + m * x * x)
  {
  }

  /** The spread is the sum of the squared differences of all pairs. */
  lemma {:induction false} SpreadIsPairwise(g: seq<int>)
    ensures Spread(g) == PairSquares(g)
  {
    if g != [] {
      var p, x := g[..|g| - 1], g[|g| - 1];
      SpreadIsPairwise(p);
      ExpandSquares(p, x);
      Grow(|p|, SumSq(p), Sum(p), x);
    }
  }

  ghost predicate Even(g: seq<int>) {
    forall i, j :: 0 <= i < |g| && 0 <= j < |g| ==> g[i] == g[j]
  }

  lemma SquareOfNonzero(d: int)
    ensures d * d >= 0 && (d != 0 ==> d * d >= 1)
  {
    if d > 0 {
      assert d * d >= d;
    } else if d < 0 {
      assert (-d) * (-d) >= -d;
    }
  }

  /** `SquaresTo` is zero when every element is `x`, at least one otherwise, and at least the length when none is. */
  lemma {:induction false} SquaresBounds(g: seq<int>, x: int)
    ensures SquaresTo(g, x) >= 0
    ensures (forall i :: 0 <= i < |g| ==> g[i] == x) ==> SquaresTo(g, x) == 0
    ensures (exists i :: 0 <= i < |g| && g[i] != x) ==> SquaresTo(g, x) >= 1
    ensures (forall i :: 0 <= i < |g| ==> g[i] != x) ==> SquaresTo(g, x) >= |g|
  {
    if g != [] {
      var last := |g| - 1;
      SquaresBounds(g[..last], x);
      SquareOfNonzero(g[last] - x);
      if i :| 0 <= i < |g| && g[i] != x {
        if i < last { assert g[..last][i] != x; }
      }
    }
  }

  lemma LastBreaks(g: seq<int>)
    requires !Even(g) && Even(g[..|g| - 1])
    ensures |g| >= 2 && forall n :: 0 <= n < |g| - 1 ==> g[n] != g[|g| - 1]
  {
    var last := |g| - 1;
    var p := g[..last];
    assert forall n :: 0 <= n < last ==> g[n] == p[n] == p[0];
    var i, j :| 0 <= i < |g| && 0 <= j < |g| && g[i] != g[j];
  }

  /** The spread of even gaps is zero; that of uneven ones is at least m - 1. */
  lemma {:induction false} SpreadGap(g: seq<int>)
    ensures Even(g) ==> Spread(g) == 0
    ensures !Even(g) ==> Spread(g) >= |g| - 1 >= 1
  {
    SpreadIsPairwise(g);
    if |g| >= 1 {
      var last := |g| - 1;
      var p, x := g[..last], g[last];
      SpreadGap(p);
      SpreadIsPairwise(p);
      SquaresBounds(p, x);
      if Even(g) {
        assert forall i :: 0 <= i < last ==> p[i] == g[i];
      } else if Even(p) {
        LastBreaks(g);
      } else {
        var i, j :| 0 <= i < |p| && 0 <= j < |p| && p[i] != p[j];
        assert p[i] != x || p[j] != x;
      }
    }
  }

  // ---------------------------------------------------------------- comparing with a threshold

  /** A deviation as the exact numbers of its square: spread / (gaps * (gaps - 1)). */
  datatype Entropy = Entropy(spread: int, gaps: nat)

  /** A rational threshold. */
  datatype Threshold = Threshold(num: int, den: nat)

  function Measure(g: seq<int>): Entropy {
    Entropy(Spread(g), |g|)
  }

  /** `stdev < num / den` without a square root. */
  predicate Below(e: Entropy, th: Threshold) {
    th.num > 0 && e.spread * (th.den * th.den) < th.num * th.num * (e.gaps * (e.gaps - 1))
  }

  function Half(th: Threshold): Threshold {
    Threshold(th.num, 2 * th.den)
  }

  lemma ScaleReal(a: real, b: real, c: real)
    requires c > 0.0
    ensures a < b <==> c * a < c * b
  {
  }

  lemma SquareOrder(a: real, b: real)
    requires a >= 0.0 && b > 0.0
    ensures a < b <==> a * a < b * b
  {
    ScaleReal(a, b, a + b);
    assert (a + b) * a == a * a + a * b;
    assert (a + b) * b == a * b + b * b;
  }

  lemma SquareRatio(r: real, p: real, q: real)
    requires r >= 0.0 && p > 0.0 && q > 0.0
    ensures r < p / q <==> (q * r) * (q * r) < p * p
  {
    assert q * (p / q) == p;
    ScaleReal(r, p / q, q);
    SquareOrder(q * r, p);
  }

  lemma RatioSign(r: real, p: real, q: real)
    requires r >= 0.0 && p <= 0.0 && q > 0.0
    ensures !(r < p / q)
  {
    assert q * (p / q) == p;
    ScaleReal(r, p / q, q);
  }

  lemma CancelFactor(whole: real, m: real, k: real, v: real, s: real)
    requires m > 0.0 && whole == m * k && whole * v == m * s
    ensures k * v == s
  {
    assert m * (k * v) == m * s;
    ScaleReal(k * v, s, m);
    ScaleReal(s, k * v, m);
  }

  lemma SquareOfProduct(q: real, r: real)
    ensures (q * r) * (q * r) == q * q * (r * r)
  {
  }

  /** With c * v the spread, comparing v with p^2 / q^2 is comparing integers. */
  lemma CompareScaled(spread: real, c: real, v: real, p2: real, q2: real)
    requires c > 0.0 && c * v == spread
    ensures q2 * v < p2 <==> spread * q2 < p2 * c
  {
    ScaleReal(q2 * v, p2, c);
    assert c * (q2 * v) == q2 * (c * v);
  }

  lemma FactorsAsReals(m: int, pairs: int, spread: int)
    requires pairs == m * (m - 1)
    ensures (m * m * (m - 1)) as real == m as real * pairs as real
    ensures (m * spread) as real == m as real * spread as real
  {
    assert m * m * (m - 1) == m * pairs;
  }

  lemma PairsTimesVariance(v: real, m: int, pairs: int, spread: int, scaled: int)
    requires m >= 2 && pairs == m * (m - 1) && scaled == m * spread
    requires (m * m * (m - 1)) as real * v == scaled as real
    ensures pairs as real * v == spread as real
  {
    FactorsAsReals(m, pairs, spread);
    CancelFactor((m * m * (m - 1)) as real, m as real, pairs as real, v, spread as real);
  }

  /** The spread is the variance times m * (m - 1). */
  lemma SpreadIsVariance(v: real, g: seq<int>)
    requires IsVariance(v, g)
    ensures (|g| * (|g| - 1)) as real * v == Spread(g) as real
  {
    ScaledIsSpread(g);
    PairsTimesVariance(v, |g|, |g| * (|g| - 1), Spread(g), ScaledDeviations(g, |g|, Sum(g)));
  }

  lemma IntegersAsReals(spread: int, den: int, num: int, pairs: int)
    ensures (spread * (den * den)) as real == spread as real * (den as real * den as real)
    ensures (num * num * pairs) as real == num as real * num as real * pairs as real
  {
  }

  lemma RatioAgainstIntegers(stdev: real, num: int, den: int, pairs: int, spread: int)
    requires stdev >= 0.0 && num > 0 && den >= 1 && pairs >= 2
    requires pairs as real * (stdev * stdev) == spread as real
    ensures stdev < num as real / den as real <==> spread * (den * den) < num * num * pairs
  {
    var p, q := num as real, den as real;
    SquareRatio(stdev, p, q);
    SquareOfProduct(q, stdev);
    CompareScaled(spread as real, pairs as real, stdev * stdev, p * p, q * q);
    IntegersAsReals(spread, den, num, pairs);
  }

  /** The integer comparison is the comparison of the standard deviation itself. */
  lemma BelowIsStdevBelow(g: seq<int>, stdev: real, th: Threshold)
    requires IsStdev(stdev, g) && th.den >= 1
    ensures Below(Measure(g), th) <==> stdev < th.num as real / th.den as real
  {
    if th.num > 0 {
      SpreadIsVariance(stdev * stdev, g);
      assert |g| * (|g| - 1) >= 2;
      RatioAgainstIntegers(stdev, th.num, th.den, |g| * (|g| - 1), Spread(g));
    } else {
      RatioSign(stdev, th.num as real, th.den as real);
    }
  }

  lemma HalfOfRatio(num: int, den: nat)
    requires den >= 1
    ensures num as real / (2 * den) as real == num as real / den as real * 0.5
  {
    var r := num as real / den as real;
    assert den as real * r == num as real;
    assert (2 * den) as real * (r * 0.5) == num as real;
    assert (2 * den) as real * (num as real / (2 * den) as real) == num as real;
    var d := num as real / (2 * den) as real - r * 0.5;
    assert (2 * den) as real * d == 0.0;
  }

  /** Below the halved threshold is below half of the threshold. */
  lemma HalfIsHalf(g: seq<int>, stdev: real, th: Threshold)
    requires IsStdev(stdev, g) && th.den >= 1
    ensures Below(Measure(g), Half(th)) <==> stdev < th.num as real / th.den as real * 0.5
  {
    BelowIsStdevBelow(g, stdev, Half(th));
    HalfOfRatio(th.num, th.den);
  }

  /** Below half of a threshold is below the threshold. */
  lemma HalfIsBelow(e: Entropy, th: Threshold)
    requires e.spread >= 0 && Below(e, Half(th))
    ensures Below(e, th)
  {
    var d := th.den * th.den;
    assert (2 * th.den) * (2 * th.den) == 4 * d;
    assert e.spread * (4 * d) == 4 * (e.spread * d);
    assert e.spread * d >= 0;
  }

  /** The second deviation is at most the first: compares the two quotients crosswise. */
  predicate AtMostAs(e2: Entropy, e1: Entropy) {
    e1.gaps >= 2 && e2.gaps >= 2 && e2.spread * (e1.gaps * (e1.gaps - 1)) <= e1.spread * (e2.gaps * (e2.gaps - 1))
  }

  lemma CrossMultiply(s1: int, p1: int, s2: int, p2: int, n: int, d: int)
    requires p1 > 0 && p2 > 0 && d >= 0 && s2 * p1 <= s1 * p2 && s1 * d < n * p1
    ensures s2 * d < n * p2
  {
    assert (s2 * d) * p1 == (s2 * p1) * d;
    assert (s2 * p1) * d <= (s1 * p2) * d;
    assert (s1 * p2) * d == (s1 * d) * p2;
    assert (s1 * d) * p2 < (n * p1) * p2;
    assert (n * p1) * p2 == (n * p2) * p1;
    ScaleInt(s2 * d, n * p2, p1);
  }

  /** A smaller deviation is below every threshold a larger one is below. */
  lemma BelowMonotone(e1: Entropy, e2: Entropy, th: Threshold)
    requires AtMostAs(e2, e1) && Below(e1, th)
    ensures Below(e2, th)
  {
    assert e1.gaps * (e1.gaps - 1) > 0 && e2.gaps * (e2.gaps - 1) > 0;
    CrossMultiply(e1.spread, e1.gaps * (e1.gaps - 1), e2.spread, e2.gaps * (e2.gaps - 1), th.num * th.num,
                  th.den * th.den);
  }

  /** Even gaps have a deviation below every positive threshold. */
  lemma EvenIsBelow(g: seq<int>, th: Threshold)
    requires |g| >= 2 && Even(g)
    ensures Below(Measure(g), th) <==> th.num > 0
  {
    SpreadGap(g);
    if th.num > 0 {
      assert |g| * (|g| - 1) >= 2;
      assert th.num * th.num >= 1;
      assert th.num * th.num * (|g| * (|g| - 1)) >= 2;
    }
  }

  /** All gaps one, except a single gap of two. */
  function OneOff(m: nat): (g: seq<int>)
    ensures |g| == m && forall i :: 0 <= i < m ==> g[i] == if i == 0 then 2 else 1
  {
    seq(m, i => if i == 0 then 2 else 1)
  }

  lemma {:induction false} OneOffSpread(m: nat)
    requires m >= 1
    ensures Sum(OneOff(m)) == m + 1 && SumSq(OneOff(m)) == m + 3 && Spread(OneOff(m)) == m - 1
  {
    var g := OneOff(m);
    if m == 1 {
      assert g[..0] == [];
    } else {
      OneOffSpread(m - 1);
      assert g[..m - 1] == OneOff(m - 1);
    }
    assert m * (m + 3) - (m + 1) * (m + 1) == m - 1;
  }

  lemma ScaleInt(a: int, b: int, c: int)
    requires c > 0
    ensures a < b <==> c * a < c * b
  {
  }

  lemma MulAtLeast(a: int, b: int, c: int)
    requires a >= b && c >= 0
    ensures a * c >= b * c
  {
  }

  lemma SpreadTooWide(spread: int, m: int, p: int, q: int)
    requires m >= 2 && m * p <= q && spread >= m - 1 && q >= 0
    ensures !(spread * q < p * (m * (m - 1)))
  {
    MulAtLeast(spread, m - 1, q);
    MulAtLeast(q, m * p, m - 1);
    assert (m - 1) * q == q * (m - 1);
    assert (m * p) * (m - 1) == p * (m * (m - 1));
  }

  lemma BelowMeansEven(g: seq<int>, th: Threshold)
    requires |g| >= 2 && |g| * (th.num * th.num) <= th.den * th.den && Below(Measure(g), th)
    ensures Even(g)
  {
    SpreadGap(g);
    if Spread(g) >= |g| - 1 {
      SpreadTooWide(Spread(g), |g|, th.num * th.num, th.den * th.den);
    }
  }

  lemma OneOffBelow(m: nat, th: Threshold)
    requires m >= 2 && th.num > 0 && m * (th.num * th.num) > th.den * th.den
    ensures Below(Measure(OneOff(m)), th) && !Even(OneOff(m))
  {
    var p, q := th.num * th.num, th.den * th.den;
    OneOffSpread(m);
    ScaleInt(q, m * p, m - 1);
    assert p * (m * (m - 1)) == (m - 1) * (m * p);
    assert OneOff(m)[0] != OneOff(m)[1];
  }

  /** For m gaps a deviation below the threshold proves even spacing exactly when m * num^2 <= den^2. */
  lemma BelowMeansEvenIff(m: nat, th: Threshold)
    requires m >= 2 && th.num > 0
    ensures (forall g: seq<int> | |g| == m && Below(Measure(g), th) :: Even(g))
       <==> m * (th.num * th.num) <= th.den * th.den
  {
    if m * (th.num * th.num) <= th.den * th.den {
      forall g: seq<int> | |g| == m && Below(Measure(g), th) ensures Even(g) {
        BelowMeansEven(g, th);
      }
    } else {
      OneOffBelow(m, th);
    }
  }

  /** With the default threshold 1/2 the very-low branch, at half of it, fires only for perfectly even
      spacing up to sixteen gaps, and for some uneven spacing from seventeen on. */
  lemma DefaultThreshold(m: nat)
    requires m >= 2
    ensures (forall g: seq<int> | |g| == m && Below(Measure(g), Half(Threshold(1, 2))) :: Even(g)) <==> m <= 16
  {
    BelowMeansEvenIff(m, Half(Threshold(1, 2)));
  }
}
