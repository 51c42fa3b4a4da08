/** The one-pass mean and deviation of a stream of numbers, over the reals. */
module Welford {
  function Sum(xs: seq<real>): real {
    if xs == [] then 0.0 else Sum(xs[..|xs| - 1]) + xs[|xs| - 1]
  }

  function Mean(xs: seq<real>): real {
    if xs == [] then 0.0 else Sum(xs) / |xs| as real
  }

  function Square(d: real): (r: real)
    ensures r >= 0.0
  {
    d * d
  }

  /** The sum of the squared distances to a centre. */
  function SquaresAround(xs: seq<real>, c: real): (r: real)
    ensures r >= 0.0
  {
    if xs == [] then 0.0 else SquaresAround(xs[..|xs| - 1], c) + Square(xs[|xs| - 1] - c)
  }

  /** The two-pass definition: squared deviations from the mean, summed up. */
  function Deviation(xs: seq<real>): (r: real)
    ensures r >= 0.0
  {
    SquaresAround(xs, Mean(xs))
  }

  datatype Stats = Stats(n: nat, mean: real, dev: real)

  /** The one-pass update. */
  function Update(s: Stats, x: real): Stats {
    var n := s.n + 1;
    var d := x - s.mean;
    var mean := s.mean + d / n as real;
    var d2 := x - mean;
    Stats(n, mean, s.dev + d * d2)
  }

  function OnePass(xs: seq<real>): Stats {
    if xs == [] then Stats(0, 0.0, 0.0) else Update(OnePass(xs[..|xs| - 1]), xs[|xs| - 1])
  }

  /** What moving the centre from c to e adds, for n numbers that sum up to s. */
  function Shift(s: real, n: real, c: real, e: real): real {
    2.0 * (c - e) * s + n * (e * e - c * c)
  }

  lemma ShiftStep(s: real, n: real, x: real, c: real, e: real)
    ensures Shift(s + x, n + 1.0, c, e) + Square(x - c) == Shift(s, n, c, e) + Square(x - e)
  {
    assert (x - e) * (x - e) == (x - c) * (x - c) + 2.0 * (c - e) * x + (e * e - c * c);
    assert 2.0 * (c - e) * (s + x) == 2.0 * (c - e) * s + 2.0 * (c - e) * x;
    assert (n + 1.0) * (e * e - c * c) == n * (e * e - c * c) + (e * e - c * c);
  }

  lemma ShiftNothing(c: real, e: real)
    ensures Shift(0.0, 0.0, c, e) == 0.0
  {
  }

  lemma {:induction false} MoveCentre(xs: seq<real>, c: real, e: real)
    ensures SquaresAround(xs, e) == SquaresAround(xs, c) + Shift(Sum(xs), |xs| as real, c, e)
  {
    hide Shift, Square;
    if xs == [] {
      ShiftNothing(c, e);
    } else {
      MoveCentre(xs[..|xs| - 1], c, e);
      ShiftStep(Sum(xs[..|xs| - 1]), (|xs| - 1) as real, xs[|xs| - 1], c, e);
    }
  }

  /** The step of the means: n m = s and m' = m + (x - m)/(n + 1) give (n + 1) m' = s + x. */
  lemma MeanStep(n: real, m: real, x: real)
    requires n >= 0.0
    ensures (n + 1.0) * (m + (x - m) / (n + 1.0)) == n * m + x
  {
    var q := (x - m) / (n + 1.0);
    assert (n + 1.0) * q == x - m;
    assert (n + 1.0) * (m + q) == (n + 1.0) * m + (n + 1.0) * q;
    assert (n + 1.0) * m == n * m + m;
  }

  /** The algebra of the deviation step, with x = (n + 1) e - n m. */
  lemma DeviationStep(n: real, m: real, e: real, x: real)
    requires (n + 1.0) * e == n * m + x
    ensures Shift(n * m, n, m, e) + Square(x - e) == (x - m) * (x - e)
  {
    // both sides less (x - e)^2 are n (m - e)^2 and (e - m)(x - e), and x - e = n (e - m)
    assert x - e == n * (e - m);
    var d := e - m;
    assert 2.0 * (m - e) * (n * m) + n * (e * e - m * m) == n * (d * d) by {
      assert e * e - m * m == d * (e + m);
      assert 2.0 * (m - e) * (n * m) == n * (d * (-2.0 * m));
      assert d * (-2.0 * m) + d * (e + m) == d * d;
      assert n * (d * (-2.0 * m)) + n * (d * (e + m)) == n * (d * (-2.0 * m) + d * (e + m));
    }
    assert (x - m) * (x - e) == (x - e) * (x - e) + d * (x - e);
    assert d * (x - e) == n * (d * d);
  }

  lemma MeanTimes(xs: seq<real>)
    ensures |xs| as real * Mean(xs) == Sum(xs)
  {
  }

  lemma SameFactor(k: real, a: real, b: real)
    requires k > 0.0 && k * a == k * b
    ensures a == b
  {
  }

  lemma Step(s: real, n: real, n': real, m: real, e: real, x: real)
    requires n >= 0.0 && n' == n + 1.0 && n * m == s && n' * e == s + x
    ensures e == m + (x - m) / n'
    ensures Shift(s, n, m, e) + Square(x - e) == (x - m) * (x - e)
  {
    hide Shift, Square;
    MeanStep(n, m, x);
    SameFactor(n + 1.0, e, m + (x - m) / (n + 1.0));
    DeviationStep(n, m, e, x);
  }

  /** The update, read with the centre moved from the old mean to the new one. */
  lemma NextStats(xs: seq<real>, dev: real)
    requires xs != []
    ensures var front, x := xs[..|xs| - 1], xs[|xs| - 1];
      Update(Stats(|front|, Mean(front), dev), x)
        == Stats(|xs|, Mean(xs),
                 dev + (Shift(Sum(front), |front| as real, Mean(front), Mean(xs)) + Square(x - Mean(xs))))
  {
    hide Shift, Square, Mean;
    var front, x := xs[..|xs| - 1], xs[|xs| - 1];
    MeanTimes(front);
    MeanTimes(xs);
    Step(Sum(front), |front| as real, |xs| as real, Mean(front), Mean(xs), x);
  }

  lemma NoNumbers()
    ensures Mean([]) == 0.0 && Deviation([]) == 0.0
  {
  }

  lemma LastSquare(xs: seq<real>, c: real)
    requires xs != []
    ensures SquaresAround(xs, c) == SquaresAround(xs[..|xs| - 1], c) + Square(xs[|xs| - 1] - c)
  {
  }

  /** The one-pass statistics are the two-pass ones. */
  lemma {:induction false} OnePassIsTwoPass(xs: seq<real>)
    ensures OnePass(xs) == Stats(|xs|, Mean(xs), Deviation(xs))
  {
    hide Shift, Square, Mean, SquaresAround, Update;
    if xs == [] {
      NoNumbers();
    } else {
      var front, x := xs[..|xs| - 1], xs[|xs| - 1];
      OnePassIsTwoPass(front);
      NextStats(xs, Deviation(front));
      MoveCentre(front, Mean(front), Mean(xs));
      LastSquare(xs, Mean(xs));
    }
  }

  /** std::sqrt, without rounding. */
  ghost predicate IsRoot(root: real -> real) {
    forall v :: v >= 0.0 ==> root(v) >= 0.0 && root(v) * root(v) == v
  }

  function Abs(x: real): real { if x < 0.0 then -x else x }

  /** The two-pass test: more than five numbers, not all equal, and the last one is at least z standard
    deviations away from their mean. */
  predicate Anomalous(xs: seq<real>, z: real)
    requires xs != []
  {
    var x := xs[|xs| - 1];
    && |xs| > 5 && Deviation(xs) > 0.0
    && (z <= 0.0 || Square(x - Mean(xs)) * (|xs| - 1) as real >= z * z * Deviation(xs))
  }

  /** The test as the detector computes it from the statistics. */
  predicate ZTest(s: Stats, x: real, z: real, root: real -> real) {
    && s.n > 5 && s.dev > 0.0
    && var sd := root(s.dev / (s.n - 1) as real);
       sd > 0.0 && Abs((x - s.mean) / sd) >= z
  }

  lemma SquareOf(d: real)
    ensures Square(d) == d * d
  {
  }

  lemma QuotientPositive(a: real, k: real)
    requires a > 0.0 && k > 0.0
    ensures a / k > 0.0 && (a / k) * k == a
  {
  }

  lemma Regroup(a: real, b: real)
    ensures (a * b) * (a * b) == (a * a) * (b * b)
  {
    assert (a * b) * (a * b) == a * (b * (a * b));
    assert b * (a * b) == a * (b * b);
  }

  lemma Regroup3(a: real, b: real, c: real)
    ensures (a * b) * c == a * (b * c)
  {
  }

  lemma ProductPositive(a: real, b: real)
    requires a > 0.0 && b > 0.0
    ensures a * b > 0.0
  {
  }

  lemma SquaresKeepOrder(y: real, z: real)
    requires y >= 0.0 && z > 0.0
    ensures y >= z <==> y * y >= z * z
  {
    if y >= z {
      var d := y - z;
      assert y * y == z * z + (2.0 * (z * d) + d * d);
    } else {
      var d := z - y;
      ProductPositive(d, z);
      assert z * z == y * y + (d * z + y * d);
    }
  }

  lemma FactorKeepsOrder(a: real, b: real, f: real)
    requires f > 0.0
    ensures a >= b <==> a * f >= b * f
  {
    assert (a - b) * f == a * f - b * f;
    if a < b { assert (b - a) * f > 0.0; } else { assert (a - b) * f >= 0.0; }
  }

  lemma ScoreBySquares(d: real, sd: real, v: real, k: real, dev: real, z: real)
    requires sd >= 0.0 && sd * sd == v && v > 0.0 && k > 0.0 && v * k == dev
    ensures sd > 0.0
    ensures Abs(d / sd) >= z <==> z <= 0.0 || d * d * k >= z * z * dev
  {
    assert sd != 0.0;
    var y := Abs(d / sd);
    assert y >= 0.0 && y * sd == Abs(d) by { assert (d / sd) * sd == d; }
    if z > 0.0 {
      SquaresKeepOrder(y, z);
      // d * d == y * y * v, so both sides of the test carry the factor v * k
      assert d * d == Abs(d) * Abs(d) == (y * sd) * (y * sd);
      assert (y * sd) * (y * sd) == (y * y) * (sd * sd) by { Regroup(y, sd); }
      assert d * d * k == (y * y) * dev by { Regroup3(y * y, v, k); }
      FactorKeepsOrder(y * y, z * z, dev);
    }
  }

  lemma ZTestIsAnomalous(xs: seq<real>, z: real, root: real -> real)
    requires IsRoot(root) && xs != []
    ensures ZTest(OnePass(xs), xs[|xs| - 1], z, root) <==> Anomalous(xs, z)
  {
    hide OnePass, Deviation, Mean, Square;
    OnePassIsTwoPass(xs);
    var s := OnePass(xs);
    if s.n > 5 && s.dev > 0.0 {
      var k := (s.n - 1) as real;
      var v := s.dev / k;
      QuotientPositive(s.dev, k);
      assert root(v) >= 0.0 && root(v) * root(v) == v;
      ScoreBySquares(xs[|xs| - 1] - s.mean, root(v), v, k, s.dev, z);
      assert Square(xs[|xs| - 1] - s.mean) == (xs[|xs| - 1] - s.mean) * (xs[|xs| - 1] - s.mean) by {
        SquareOf(xs[|xs| - 1] - s.mean);
      }
    }
  }

  lemma QuotientSign(v: real, d: real)
    requires v <= 0.0 && d > 0.0
    ensures v / d <= 0.0
  {
  }

  lemma ProductSign(a: real, b: real, v: real)
    requires a > 0.0 && b > 0.0 && v == a * b
    ensures v > 0.0
  {
    assert v / a == b;
    if v <= 0.0 { QuotientSign(v, a); }
  }

  lemma ScaledScore(d: real, sd: real, z: real)
    requires sd > 0.0
    ensures Abs(d / sd) >= z <==> Abs(d) >= z * sd
  {
    var y := Abs(d / sd);
    assert y * sd == Abs(d) by { assert (d / sd) * sd == d; }
    FactorKeepsOrder(y, z, sd);
  }

  /** The two-pass test in terms of the standard deviation sd, the root of the deviations' sum over n - 1: at least six
    numbers, not all the same, and the last one at least z times sd from the mean. */
  lemma AnomalousMeans(xs: seq<real>, z: real, sd: real)
    requires xs != [] && |xs| > 1
    requires sd >= 0.0 && Square(sd) * (|xs| - 1) as real == SquaresAround(xs, Sum(xs) / |xs| as real)
    ensures Anomalous(xs, z) <==> |xs| >= 6 && sd > 0.0 && Abs(xs[|xs| - 1] - Sum(xs) / |xs| as real) >= z * sd
  {
    hide Sum, SquaresAround, Square;
    var k, dev, d := (|xs| - 1) as real, Deviation(xs), xs[|xs| - 1] - Mean(xs);
    var v := Square(sd);
    SquareOf(sd);
    if sd > 0.0 {
      ProductSign(sd, sd, v);
      assert v * k == dev;
      ProductSign(v, k, dev);
      ScoreBySquares(d, sd, v, k, dev, z);
      ScaledScore(d, sd, z);
      SquareOf(d);
    } else {
      assert v * k == 0.0;
    }
  }

  /** The sums of the definition: adding a number adds it to the sum, and its squared distance to the squares. */
  lemma SumsGrow(xs: seq<real>, x: real, c: real)
    ensures Sum([]) == 0.0 && SquaresAround([], c) == 0.0
    ensures Sum(xs + [x]) == Sum(xs) + x
    ensures SquaresAround(xs + [x], c) == SquaresAround(xs, c) + (x - c) * (x - c)
  {
    assert (xs + [x])[..|xs|] == xs;
  }
}
