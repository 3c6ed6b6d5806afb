/** Welford's running mean and variance, over the reals.

    Square roots are not taken: a comparison of a z-score with a threshold is
    stated by signs and squares, and `ZBelowIsQuotient` says why that is the
    same comparison. */
module Welford {

  function Sum(h: seq<real>): real {
    if h == [] then 0.0 else Sum(h[..|h| - 1]) + h[|h| - 1]
  }

  /** Two-pass mean and sum of squared deviations, the independent reference. */
  function Mean(h: seq<real>): real {
    if h == [] then 0.0 else Sum(h) / |h| as real
  }

  function SquaredDeviations(h: seq<real>, c: real): real {
    if h == [] then 0.0
    else
      var d := h[|h| - 1] - c;
      SquaredDeviations(h[..|h| - 1], c) + d * d
  }

  /** The three numbers the program keeps. */
  datatype Stats = Stats(count: nat, mean: real, m2: real) {
    predicate IsStable() {
      count >= 2
    }

    function Variance(): real {
      if count > 1 then m2 / count as real else 0.0
    }
  }

  const EMPTY := Stats(0, 0.0, 0.0)

  /** The statistics of a whole history, from scratch. */
  ghost function TwoPass(h: seq<real>): Stats {
    Stats(|h|, Mean(h), SquaredDeviations(h, Mean(h)))
  }

  function Updated(s: Stats, x: real): Stats {
    var n := s.count + 1;
    var delta := x - s.mean;
    var mean := s.mean + delta / n as real;
    Stats(n, mean, s.m2 + delta * (x - mean))
  }

  function FoldFrom(s: Stats, h: seq<real>): Stats {
    if h == [] then s else Updated(FoldFrom(s, h[..|h| - 1]), h[|h| - 1])
  }

  function Fold(h: seq<real>): Stats {
    FoldFrom(EMPTY, h)
  }

  lemma FoldFromSnoc(s: Stats, h: seq<real>, x: real)
    ensures FoldFrom(s, h + [x]) == Updated(FoldFrom(s, h), x)
  {
    assert (h + [x])[..|h + [x]| - 1] == h;
  }

  lemma FoldSnoc(h: seq<real>, x: real)
    ensures Fold(h + [x]) == Updated(Fold(h), x)
  {
    FoldFromSnoc(EMPTY, h, x);
  }

  lemma {:induction false} FoldFromCount(s: Stats, h: seq<real>)
    ensures FoldFrom(s, h).count == s.count + |h|
  {
    if h != [] { FoldFromCount(s, h[..|h| - 1]); }
  }

  // ------------------------------------------------------------ one pass equals two

  lemma Product(a: real, b: real) returns (p: real)
    ensures p == a * b
    ensures a > 0.0 && b > 0.0 ==> p > 0.0
    ensures a >= 0.0 && b >= 0.0 ==> p >= 0.0
  {
    p := a * b;
  }

  lemma QuotientTimes(x: real, d: real) returns (q: real)
    requires d > 0.0
    ensures q == x / d && q * d == x
  {
    q := x / d;
  }

  /** Moving the centre of the squared deviations. */
  lemma {:induction false} Recentre(h: seq<real>, c: real, d: real)
    ensures SquaredDeviations(h, d) ==
            SquaredDeviations(h, c) - 2.0 * (d - c) * (Sum(h) - |h| as real * c) + |h| as real * (d - c) * (d - c)
  {
    if h != [] {
      var h', x, n := h[..|h| - 1], h[|h| - 1], |h| as real;
      Recentre(h', c, d);
      RecentreStep(SquaredDeviations(h', c), SquaredDeviations(h', d), Sum(h'), n - 1.0, x, c, d);
    }
  }

  lemma RecentreStep(qc: real, qd: real, s: real, n: real, x: real, c: real, d: real)
    requires qd == qc - 2.0 * (d - c) * (s - n * c) + n * (d - c) * (d - c)
    ensures qd + (x - d) * (x - d) ==
            qc + (x - c) * (x - c) - 2.0 * (d - c) * (s + x - (n + 1.0) * c) + (n + 1.0) * (d - c) * (d - c)
  {
    var e := d - c;
    assert (x - d) * (x - d) == (x - c) * (x - c) - 2.0 * e * (x - c) + e * e;
    assert 2.0 * e * (s + x - (n + 1.0) * c) == 2.0 * e * (s - n * c) + 2.0 * e * (x - c);
    assert (n + 1.0) * e * e == n * e * e + e * e;
  }

  lemma MeanTimesCount(h: seq<real>)
    ensures Mean(h) * |h| as real == Sum(h)
  {
  }

  lemma {:induction false} DeviationsNonNegative(h: seq<real>, c: real)
    ensures SquaredDeviations(h, c) >= 0.0
  {
    if h != [] {
      DeviationsNonNegative(h[..|h| - 1], c);
      var d := h[|h| - 1] - c;
      var p := Product(if d < 0.0 then -d else d, if d < 0.0 then -d else d);
      assert p == d * d;
    }
  }

  /** Both ways of writing the mean after one more value. */
  lemma MeanStep(h: seq<real>, x: real) returns (step: real)
    ensures Mean(h + [x]) == Mean(h) + step
    ensures step * (|h| as real + 1.0) == x - Mean(h)
  {
    var g, n, a := h + [x], |h| as real, Mean(h);
    assert g[..|g| - 1] == h;
    assert (|h| + 1) as real == n + 1.0;
    step := (x - a) / (n + 1.0);
    MeanTimesCount(h);
    MeanTimesCount(g);
    assert (a + step) * (n + 1.0) == a * n + a + step * (n + 1.0);
    QuotientUnique(a + step, Mean(g), n + 1.0);
  }

  lemma DeviationsSnoc(h: seq<real>, x: real, c: real)
    ensures SquaredDeviations(h + [x], c) == SquaredDeviations(h, c) + (x - c) * (x - c)
  {
    assert (h + [x])[..|h + [x]| - 1] == h;
  }

  lemma DeviationsStep(h: seq<real>, x: real, a: real, b: real)
    requires a == Mean(h) && b == Mean(h + [x])
    ensures SquaredDeviations(h + [x], b) == SquaredDeviations(h, a) + (x - a) * (x - b)
  {
    var step := MeanStep(h, x);
    MeanTimesCount(h);
    Recentre(h, a, b);
    DeviationsSnoc(h, x, b);
    UpdateAlgebra(|h| as real, x, a, b, step, SquaredDeviations(h, a), SquaredDeviations(h, b), Sum(h));
  }

  /** One update of the two-pass statistics gives the two-pass statistics. */
  lemma UpdateIsTwoPass(h: seq<real>, x: real)
    ensures Updated(TwoPass(h), x) == TwoPass(h + [x])
  {
    var a, b := Mean(h), Mean(h + [x]);
    TwoPassStep(h, x, a, b, SquaredDeviations(h, a), SquaredDeviations(h + [x], b));
  }

  lemma TwoPassStep(h: seq<real>, x: real, a: real, b: real, q: real, q': real)
    requires a == Mean(h) && b == Mean(h + [x])
    requires q == SquaredDeviations(h, a) && q' == SquaredDeviations(h + [x], b)
    ensures Updated(Stats(|h|, a, q), x) == Stats(|h| + 1, b, q')
  {
    var step := MeanStep(h, x);
    assert step * (|h| + 1) as real == x - a && b == a + step;
    DeviationsStep(h, x, a, b);
    UpdatedIs(Stats(|h|, a, q), x, step, b);
  }

  lemma UpdatedIs(s: Stats, x: real, step: real, b: real)
    requires step * (s.count + 1) as real == x - s.mean && b == s.mean + step
    ensures Updated(s, x) == Stats(s.count + 1, b, s.m2 + (x - s.mean) * (x - b))
  {
    var n, delta := (s.count + 1) as real, x - s.mean;
    DivisionIs(step, delta, n);
    var u := Updated(s, x);
    assert u.mean == b;
    assert u.m2 == s.m2 + delta * (x - u.mean);
  }

  lemma DivisionIs(q: real, a: real, n: real)
    requires n > 0.0 && q * n == a
    ensures a / n == q
  {
    QuotientUnique(a / n, q, n);
  }

  lemma QuotientUnique(a: real, b: real, n: real)
    requires n > 0.0 && a * n == b * n
    ensures a == b
  {
    assert (a - b) * n == 0.0;
  }

  lemma UpdateAlgebra(n: real, x: real, a: real, b: real, step: real, qa: real, qb: real, sum: real)
    requires b == a + step && step * (n + 1.0) == x - a && a * n == sum
    requires qb == qa - 2.0 * (b - a) * (sum - n * a) + n * (b - a) * (b - a)
    ensures qb + (x - b) * (x - b) == qa + (x - a) * (x - b)
  {
    assert sum - n * a == 0.0;
    assert x - b == n * step;
    assert x - a == n * step + step;
    assert (x - a) * (x - b) == (x - b) * (x - b) + step * (x - b);
    assert n * step * step == step * (n * step);
  }

  /** Over any history the running statistics are the two-pass ones. */
  lemma {:induction false} FoldIsTwoPass(h: seq<real>)
    ensures Fold(h) == TwoPass(h)
  {
    if h != [] {
      FoldIsTwoPass(h[..|h| - 1]);
      UpdateIsTwoPass(h[..|h| - 1], h[|h| - 1]);
      assert h[..|h| - 1] + [h[|h| - 1]] == h;
    }
  }

  /** The mean of values in a range stays in the range. */
  lemma {:induction false} SumBounds(h: seq<real>, lo: real, hi: real)
    requires forall i | 0 <= i < |h| :: lo <= h[i] <= hi
    ensures lo * |h| as real <= Sum(h) <= hi * |h| as real
  {
    if h != [] {
      SumBounds(h[..|h| - 1], lo, hi);
      assert lo * |h| as real == lo * (|h| - 1) as real + lo;
      assert hi * |h| as real == hi * (|h| - 1) as real + hi;
    }
  }

  lemma MeanInRange(h: seq<real>, lo: real, hi: real)
    requires h != [] && forall i | 0 <= i < |h| :: lo <= h[i] <= hi
    ensures lo <= Mean(h) <= hi
  {
    SumBounds(h, lo, hi);
    MeanTimesCount(h);
    RangeAlgebra(Mean(h), |h| as real, Sum(h), lo, hi);
  }

  lemma FoldMeanInRange(h: seq<real>, lo: real, hi: real)
    requires h != [] && forall i | 0 <= i < |h| :: lo <= h[i] <= hi
    ensures lo <= Fold(h).mean <= hi
  {
    FoldIsTwoPass(h);
    MeanInRange(h, lo, hi);
  }

  lemma RangeAlgebra(m: real, n: real, sum: real, lo: real, hi: real)
    requires n > 0.0 && m * n == sum && lo * n <= sum <= hi * n
    ensures lo <= m <= hi
  {
    QuotientMono(m, hi, n);
    QuotientMono(lo, m, n);
  }

  lemma QuotientMono(a: real, b: real, n: real)
    requires n > 0.0 && a * n <= b * n
    ensures a <= b
  {
    var p := Product(a - b, n);
    assert p == a * n - b * n;
  }

  // ------------------------------------------------------------ z-scores

  /** (x - mean) / sqrt(variance) < t, without the root. */
  predicate ZBelow(deviation: real, variance: real, t: real) {
    if t <= 0.0 then deviation < 0.0 && deviation * deviation > t * t * variance
    else deviation < 0.0 || deviation * deviation < t * t * variance
  }

  /** (x - mean) / sqrt(variance) > t, without the root. */
  predicate ZAbove(deviation: real, variance: real, t: real) {
    ZBelow(-deviation, variance, -t)
  }

  lemma SquareOrder(a: real, b: real)
    requires a >= 0.0 && b >= 0.0
    ensures a < b <==> a * a < b * b
  {
    if a < b { SquareGrows(a, b); }
    if b < a { SquareGrows(b, a); }
  }

  lemma SquareGrows(a: real, b: real)
    requires 0.0 <= a < b
    ensures a * a < b * b
  {
    var u := Product(b - a, b);
    var w := Product(b - a, a);
    SquareGap(a, b, a * a, b * b, u, w);
  }

  lemma SquareGap(a: real, b: real, aa: real, bb: real, u: real, w: real)
    requires aa == a * a && bb == b * b && u == (b - a) * b && w == (b - a) * a
    ensures bb - aa == u + w
  {
  }

  /** The root-free comparison is the comparison of the quotient. */
  lemma ZBelowIsQuotient(deviation: real, variance: real, sd: real, t: real)
    requires sd > 0.0 && sd * sd == variance
    ensures ZBelow(deviation, variance, t) <==> deviation / sd < t
    ensures ZAbove(deviation, variance, t) <==> deviation / sd > t
  {
    QuotientBelow(deviation, variance, sd, t);
    QuotientBelow(-deviation, variance, sd, -t);
    assert (-deviation) / sd == -(deviation / sd);
  }

  lemma QuotientBelow(deviation: real, variance: real, sd: real, t: real)
    requires sd > 0.0 && sd * sd == variance
    ensures ZBelow(deviation, variance, t) <==> deviation / sd < t
  {
    var z := deviation / sd;
    assert z * sd == deviation;
    ScaleOrder(z, t, sd);
    assert deviation / sd < t <==> deviation < t * sd;
    assert (t * sd) * (t * sd) == t * t * variance;
    if t <= 0.0 {
      assert t * sd <= 0.0;
      if deviation < 0.0 { SquareOrder(-(t * sd), -deviation); }
    } else {
      assert t * sd > 0.0;
      if deviation >= 0.0 { SquareOrder(deviation, t * sd); }
    }
  }

  lemma ScaleOrder(a: real, b: real, s: real)
    requires s > 0.0
    ensures a < b <==> a * s < b * s
  {
    assert b * s - a * s == (b - a) * s;
  }

  lemma FoldM2NonNegative(h: seq<real>)
    ensures Fold(h).m2 >= 0.0 && Fold(h).count == |h|
  {
    FoldIsTwoPass(h);
    DeviationsNonNegative(h, Mean(h));
  }

  /** A value moves the squared deviations up, and strictly unless it is the mean. */
  lemma UpdateSpreads(s: Stats, x: real)
    requires s.m2 >= 0.0
    ensures Updated(s, x).m2 >= s.m2
    ensures s.count > 0 && x != s.mean ==> Updated(s, x).m2 > s.m2
  {
    var n := s.count as real;
    assert (s.count + 1) as real == n + 1.0;
    var step := (x - s.mean) / (n + 1.0);
    assert step * (n + 1.0) == x - s.mean;
    UpdatedIs(s, x, step, s.mean + step);
    var d, d' := x - s.mean, x - (s.mean + step);
    var p := Product(d, d');
    assert Updated(s, x).m2 == s.m2 + p;
    SpreadAlgebra(n, step, d, d');
  }

  lemma SpreadAlgebra(n: real, step: real, d: real, d': real)
    requires n >= 0.0 && d == step * (n + 1.0) && d' == d - step
    ensures d * d' >= 0.0
    ensures n > 0.0 && d != 0.0 ==> d * d' > 0.0
  {
    var a := if step < 0.0 then -step else step;
    assert d' == step * n;
    var p := Product(a, n);
    var q := Product(a, n + 1.0);
    var r := Product(q, p);
    assert d * d' == q * p;
  }

  /** A sample scored against statistics that already contain it has a squared
      z-score of at most count - 1. */
  lemma OwnScoreBound(s: Stats, x: real)
    requires s.m2 >= 0.0
    ensures
      var u := Updated(s, x);
      u.count as real * (x - u.mean) * (x - u.mean) <= s.count as real * u.m2
  {
    var n := s.count as real;
    assert (s.count + 1) as real == n + 1.0;
    var step := (x - s.mean) / (n + 1.0);
    assert step * (n + 1.0) == x - s.mean;
    UpdatedIs(s, x, step, s.mean + step);
    OwnScoreAlgebra(n, x, s.mean, s.mean + step, step, s.m2, Updated(s, x).m2);
  }

  lemma OwnScoreAlgebra(n: real, x: real, a: real, b: real, step: real, m2: real, m2': real)
    requires n >= 0.0 && m2 >= 0.0
    requires b == a + step && step * (n + 1.0) == x - a && m2' == m2 + (x - a) * (x - b)
    ensures (n + 1.0) * (x - b) * (x - b) <= n * m2'
  {
    var d := x - b;
    assert d == n * step;
    assert x - a == (n + 1.0) * step;
    OwnScoreProducts(n, step, d, m2);
  }

  lemma OwnScoreProducts(n: real, step: real, d: real, m2: real)
    requires n >= 0.0 && m2 >= 0.0 && d == n * step
    ensures (n + 1.0) * d * d <= n * (m2 + (n + 1.0) * step * d)
  {
    assert n * ((n + 1.0) * step * d) == (n + 1.0) * (n * step) * d;
    assert n * (m2 + (n + 1.0) * step * d) == n * m2 + n * ((n + 1.0) * step * d);
    var p := Product(n, m2);
  }

  lemma ScoredNeedsSamples(s: Stats, x: real, t: real)
    requires s.m2 >= 0.0 && t <= 0.0
    requires var u := Updated(s, x); u.IsStable() && u.Variance() > 0.0 && ZBelow(x - u.mean, u.Variance(), t)
    ensures (s.count + 1) as real > 1.0 + t * t
  {
    var u := Updated(s, x);
    OwnScoreBound(s, x);
    SamplesAlgebra(u.count as real, u.Variance(), x - u.mean, u.m2, t);
  }

  /** Hence a fast-cancel threshold t <= 0 needs more than 1 + t^2 samples. */
  lemma AlertNeedsSamples(h: seq<real>, x: real, t: real)
    requires t <= 0.0
    requires var u := Fold(h + [x]); u.IsStable() && u.Variance() > 0.0 && ZBelow(x - u.mean, u.Variance(), t)
    ensures |h + [x]| as real > 1.0 + t * t
  {
    FoldM2NonNegative(h);
    assert (h + [x])[..|h + [x]| - 1] == h;
    ScoredNeedsSamples(Fold(h), x, t);
  }

  lemma OutlierNeedsSamples(h: seq<real>, x: real, t: real)
    requires t <= 0.0
    requires var u := TwoPass(h + [x]); u.IsStable() && u.Variance() > 0.0 && ZBelow(x - u.mean, u.Variance(), t)
    ensures |h + [x]| as real > 1.0 + t * t
  {
    FoldIsTwoPass(h + [x]);
    AlertNeedsSamples(h, x, t);
  }

  lemma SamplesAlgebra(n: real, v: real, d: real, m2: real, t: real)
    requires n > 1.0 && v > 0.0 && v == m2 / n
    requires n * d * d <= (n - 1.0) * m2 && d * d > t * t * v
    ensures n > 1.0 + t * t
  {
    assert v * n == m2;
    assert n * d * d == (d * d) * n;
    assert (n - 1.0) * m2 == ((n - 1.0) * v) * n;
    QuotientMono(d * d, (n - 1.0) * v, n);
    var p := Product(t * t - (n - 1.0), v);
    assert p == t * t * v - (n - 1.0) * v;
  }

  // ------------------------------------------------------------ the object

  /** The accumulator as the program holds it, with its whole history as ghost state. */
  class WelfordStats {
    var count: nat
    var mean: real
    var m2: real
    ghost var history: seq<real>

    function State(): Stats
      reads this
    {
      Stats(count, mean, m2)
    }

    ghost predicate Valid()
      reads this
    {
      State() == TwoPass(history)
    }

    constructor ()
      ensures Valid() && history == []
    {
      count, mean, m2 := 0, 0.0, 0.0;
      history := [];
    }

    method Update(value: real)
      requires Valid()
      modifies this
      ensures Valid() && history == old(history) + [value]
    {
      UpdateIsTwoPass(history, value);
      ghost var before := State();
      count := count + 1;
      var delta := value - mean;
      mean := mean + delta / count as real;
      var delta2 := value - mean;
      m2 := m2 + delta * delta2;
      history := history + [value];
      assert State() == Updated(before, value);
    }

    method Reset()
      modifies this
      ensures Valid() && history == []
    {
      count := 0;
      mean := 0.0;
      m2 := 0.0;
      history := [];
    }
  }
}
