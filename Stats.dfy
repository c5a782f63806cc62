/**
  * Window statistics of the z-score detector: the arithmetic mean and the
  * population variance (divisor N) of the values held in the sliding window.
  * Values are exact reals; the detector's floating-point rounding is not modelled.
  */
module Stats {

  /** Sum of the values, accumulated from the oldest to the newest. */
  function Sum(s: seq<real>): real
  {
    if s == [] then 0.0 else Sum(s[..|s| - 1]) + s[|s| - 1]
  }

  /** Arithmetic mean of a non-empty window, as numpy.mean computes it. */
  function Mean(s: seq<real>): real
    requires |s| > 0
  {
    Sum(s) / (|s| as real)
  }

  /** The square of `x`. */
  function Square(x: real): real
  {
    x * x
  }

  /** The product of `x` and `y`; used to state sign facts about squares. */
  function Product(x: real, y: real): real
  {
    x * y
  }

  /** Two factors of the same strict sign give a positive product. */
  lemma ProductPositive(a: real, b: real)
    requires (a > 0.0 && b > 0.0) || (a < 0.0 && b < 0.0)
    ensures Product(a, b) > 0.0
  {
  }

  /** A square is never negative, and it is zero only for zero. */
  lemma SquareSign(x: real)
    ensures Square(x) >= 0.0
    ensures Square(x) == 0.0 <==> x == 0.0
  {
    if x != 0.0 {
      ProductPositive(x, x);
    }
  }

  /** Sum of the squared distances of the values from `m`. */
  function SquaredDeviation(s: seq<real>, m: real): (r: real)
    ensures r >= 0.0
  {
    if s == [] then 0.0
    else
      SquareSign(s[|s| - 1] - m);
      SquaredDeviation(s[..|s| - 1], m) + Square(s[|s| - 1] - m)
  }

  /**
    * Population variance of a non-empty window: the mean squared distance
    * from the mean. numpy.std returns its square root.
    */
  function Variance(s: seq<real>): (v: real)
    requires |s| > 0
    ensures v >= 0.0
  {
    SquaredDeviation(s, Mean(s)) / (|s| as real)
  }

  /** Every value of the window is the same. */
  predicate Constant(s: seq<real>)
  {
    forall i, j :: 0 <= i < |s| && 0 <= j < |s| ==> s[i] == s[j]
  }

  /** A sum of values that all lie in [lo, hi] lies in [n * lo, n * hi]. */
  lemma {:induction false} SumBounds(s: seq<real>, lo: real, hi: real)
    requires forall i :: 0 <= i < |s| ==> lo <= s[i] <= hi
    ensures (|s| as real) * lo <= Sum(s) <= (|s| as real) * hi
  {
    if s != [] {
      SumBounds(s[..|s| - 1], lo, hi);
    }
  }

  /** The mean of a window lies between any lower and upper bound of its values. */
  lemma MeanWithinBounds(s: seq<real>, lo: real, hi: real)
    requires |s| > 0
    requires forall i :: 0 <= i < |s| ==> lo <= s[i] <= hi
    ensures lo <= Mean(s) <= hi
  {
    SumBounds(s, lo, hi);
    QuotientBounds(Sum(s), |s| as real, lo, hi);
  }

  /** Dividing by a positive `n` keeps the bounds [n * lo, n * hi] as [lo, hi]. */
  lemma QuotientBounds(a: real, n: real, lo: real, hi: real)
    requires n > 0.0 && n * lo <= a <= n * hi
    ensures lo <= a / n <= hi
  {
    assert (a / n - lo) * n == a - n * lo;
    assert (hi - a / n) * n == n * hi - a;
  }

  /** The mean of a constant window is its common value. */
  lemma MeanOfConstant(s: seq<real>)
    requires |s| > 0 && Constant(s)
    ensures Mean(s) == s[0]
  {
    MeanWithinBounds(s, s[0], s[0]);
  }

  /** The squared deviation from `m` is zero exactly when every value equals `m`. */
  lemma {:induction false} SquaredDeviationZero(s: seq<real>, m: real)
    ensures SquaredDeviation(s, m) == 0.0 <==> forall i :: 0 <= i < |s| ==> s[i] == m
  {
    if s != [] {
      var p, x := s[..|s| - 1], s[|s| - 1];
      SquaredDeviationZero(p, m);
      assert SquaredDeviation(s, m) == SquaredDeviation(p, m) + Square(x - m);
      SquareSign(x - m);
      if forall i :: 0 <= i < |s| ==> s[i] == m {
        assert forall i :: 0 <= i < |p| ==> p[i] == s[i];
      }
      if SquaredDeviation(s, m) == 0.0 {
        forall i | 0 <= i < |s| ensures s[i] == m {
          if i < |p| { assert s[i] == p[i]; }
        }
      }
    }
  }

  /**
    * The variance is zero exactly when the window is constant, the case the
    * detector treats as degenerate (std_dev == 0).
    */
  lemma VarianceZeroIffConstant(s: seq<real>)
    requires |s| > 0
    ensures Variance(s) == 0.0 <==> Constant(s)
  {
    var m, n := Mean(s), |s| as real;
    SquaredDeviationZero(s, m);
    assert Variance(s) * n == SquaredDeviation(s, m);
    if Constant(s) {
      MeanOfConstant(s);
    }
  }

  /**
    * Cauchy-Schwarz for the deviations from `m`: the square of their sum is at
    * most N times the sum of their squares.
    */
  lemma {:induction false} DeviationSumBound(s: seq<real>, m: real)
    ensures Square(Sum(s) - (|s| as real) * m) <= (|s| as real) * SquaredDeviation(s, m)
  {
    if s != [] {
      var p, x := s[..|s| - 1], s[|s| - 1];
      DeviationSumBound(p, m);
      var n := |p| as real;
      assert Sum(s) - (|s| as real) * m == (Sum(p) - n * m) + (x - m);
      assert p == [] ==> Sum(p) - n * m == 0.0;
      CauchyStep(Sum(p) - n * m, SquaredDeviation(p, m), x - m, n);
    }
  }

  /** One inductive step of the Cauchy-Schwarz bound, on plain reals. */
  lemma CauchyStep(a: real, q: real, d: real, n: real)
    requires n >= 0.0 && q >= 0.0
    requires Square(a) <= n * q
    requires n == 0.0 ==> a == 0.0
    ensures Square(a + d) <= (n + 1.0) * (q + Square(d))
  {
    assert Square(a + d) == a * a + 2.0 * a * d + d * d;
    if n > 0.0 {
      // (a - n d)^2 >= 0 gives 2 n a d <= a^2 + n^2 d^2 <= n q + n^2 d^2
      assert 0.0 <= Square(a - n * d) == a * a - 2.0 * n * a * d + n * n * d * d;
      assert n * (2.0 * a * d) <= n * (q + n * d * d);
      assert 2.0 * a * d <= q + n * d * d;
    }
  }

  /**
    * Samuelson's inequality for the newest value: because it is part of its own
    * window, its squared distance from the window mean is at most (N - 1) times
    * the window variance, so its z-score never exceeds sqrt(N - 1) in magnitude.
    */
  lemma NewestDeviationBound(s: seq<real>)
    requires |s| > 0
    ensures Square(s[|s| - 1] - Mean(s)) <= (|s| as real - 1.0) * Variance(s)
  {
    var p, x := s[..|s| - 1], s[|s| - 1];
    var m, n := Mean(s), |s| as real;
    OthersBound(s);
    VarianceSplit(s);
    SquareSign(x - m);
    SamuelsonStep(Square(x - m), SquaredDeviation(p, m), n, Variance(s));
  }

  /**
    * The newest value's squared deviation from the mean is bounded by the
    * squared deviation of the other N - 1 values, times N - 1.
    */
  lemma OthersBound(s: seq<real>)
    requires |s| > 0
    ensures Square(s[|s| - 1] - Mean(s))
         <= (|s| as real - 1.0) * SquaredDeviation(s[..|s| - 1], Mean(s))
  {
    var p, x := s[..|s| - 1], s[|s| - 1];
    var m, n := Mean(s), |s| as real;
    assert Sum(s) == Sum(p) + x;
    QuotientTimesDivisor(Sum(s), n);
    OthersDeviation(Sum(p), x, m, n);
    DeviationSumBound(p, m);
  }

  /** N times the variance splits into the older values' part and the newest value's. */
  lemma VarianceSplit(s: seq<real>)
    requires |s| > 0
    ensures Variance(s) * (|s| as real)
         == SquaredDeviation(s[..|s| - 1], Mean(s)) + Square(s[|s| - 1] - Mean(s))
  {
    var m := Mean(s);
    assert SquaredDeviation(s, m) == SquaredDeviation(s[..|s| - 1], m) + Square(s[|s| - 1] - m);
    QuotientTimesDivisor(SquaredDeviation(s, m), |s| as real);
  }

  /** Dividing by a non-zero `n` and multiplying back gives the dividend. */
  lemma QuotientTimesDivisor(a: real, n: real)
    requires n != 0.0
    ensures a / n * n == a
  {
  }

  /**
    * When the window sum is N times the mean, the other N - 1 values deviate
    * from the mean by as much as the newest value does, in the other direction.
    */
  lemma OthersDeviation(rest: real, x: real, m: real, n: real)
    requires m * n == rest + x
    ensures Square(rest - (n - 1.0) * m) == Square(x - m)
  {
    assert rest - (n - 1.0) * m == m - x;
  }

  /** The arithmetic of Samuelson's inequality, on plain reals. */
  lemma SamuelsonStep(dd: real, q: real, n: real, v: real)
    requires n >= 1.0 && dd >= 0.0
    requires dd <= (n - 1.0) * q
    requires v * n == q + dd
    ensures dd <= (n - 1.0) * v
  {
    assert n * dd <= (n - 1.0) * (q + dd);
    assert n * dd <= n * ((n - 1.0) * v);
  }
}
