/**
  * Clients of the detector that run it on short streams and state what it
  * returns, using only its contracts.
  */
module Scenarios {
  import opened Stats
  import opened ZScore

  /**
    * Capacity 3, threshold 3.0, the stream 1, 1, 1, 1, 1, 1, 100. The first
    * two calls are warm-up. The window is full from the third call on, so
    * calls three to six see the constant window [1, 1, 1] and return
    * (False, 1, 0). The spike is not flagged, because the window [1, 1, 100]
    * has mean 34 and gives the z-score 66 / sqrt(2178), about 1.41.
    */
  method SpikeInSmallWindow() returns (results: seq<Detection>, last: Detection)
    ensures results == [Quiet, Quiet] + seq(4, _ => Detection(false, 1.0, Score(0.0, 0.0)))
    ensures last == Detection(false, 34.0, Score(66.0, 2178.0))
  {
    var detector := new Detector(3, 3.0);
    results := [];
    while |results| < 6
      invariant |results| <= 6
      invariant results == seq(|results|, j => if j < 2 then Quiet else Detection(false, 1.0, Score(0.0, 0.0)))
      invariant detector.Valid() && detector.capacity == 3 && detector.threshold == 3.0
      invariant detector.window == seq(if |results| < 3 then |results| else 3, _ => 1.0)
      modifies detector
    {
      var d := detector.Detect(1.0);
      if |results| >= 2 {
        assert detector.window == seq(3, _ => 1.0);
        RepeatedIsConstant(1.0, 3);
        ConstantWindowIsQuiet(detector.window, 3, 1.0, 3.0);
      } else {
        WarmupIsQuiet(detector.window, 3, 1.0, 3.0);
      }
      results := results + [d];
    }
    last := detector.Detect(100.0);
    SpikeWindowStatistics(detector.window);
  }

  /**
    * Capacity 5, threshold 3.0, nine tens then 1000. The first four calls are
    * warm-up and the next five see the constant window of five tens, so none
    * of the nine is flagged. The window [10, 10, 10, 10, 1000] has mean 208
    * and standard deviation 396, so the spike's z-score is exactly 2 and it
    * is not flagged either: the spike inflates its own baseline.
    */
  method SpikeInflatesBaseline() returns (results: seq<Detection>, last: Detection)
    ensures results == seq(4, _ => Quiet) + seq(5, _ => Detection(false, 10.0, Score(0.0, 0.0)))
    ensures last == Detection(false, 208.0, Score(792.0, 156816.0))
    ensures IsStdDev(last.score.variance, 396.0) && last.score.offset / 396.0 == 2.0
  {
    var detector := new Detector(5, 3.0);
    results := [];
    while |results| < 9
      invariant |results| <= 9
      invariant results == seq(|results|, j => if j < 4 then Quiet else Detection(false, 10.0, Score(0.0, 0.0)))
      invariant detector.Valid() && detector.capacity == 5 && detector.threshold == 3.0
      invariant detector.window == seq(if |results| < 5 then |results| else 5, _ => 10.0)
      modifies detector
    {
      var d := detector.Detect(10.0);
      if |results| >= 4 {
        assert detector.window == seq(5, _ => 10.0);
        RepeatedIsConstant(10.0, 5);
        ConstantWindowIsQuiet(detector.window, 5, 10.0, 3.0);
      } else {
        WarmupIsQuiet(detector.window, 5, 10.0, 3.0);
      }
      results := results + [d];
    }
    last := detector.Detect(1000.0);
    InflatedWindowStatistics(detector.window);
    assert Square(396.0) == 156816.0;
  }

  /** n copies of x form a constant window. */
  lemma RepeatedIsConstant(x: real, n: nat)
    ensures Constant(seq(n, _ => x))
  {
  }

  /**
    * The window [1, 1, 100] has mean 34 and population variance 2178, and
    * 3^2 * 2178 >= 66^2, so 100 is not flagged.
    */
  lemma SpikeWindowStatistics(w: seq<real>)
    requires w == [1.0, 1.0, 100.0]
    ensures Mean(w) == 34.0 && Variance(w) == 2178.0
    ensures Classify(w, 3, 100.0, 3.0) == Detection(false, 34.0, Score(66.0, 2178.0))
  {
    assert w[..2] == [1.0, 1.0] && w[..2][..1] == [1.0] && w[..2][..1][..0] == [];
    assert Sum(w[..2][..1]) == 1.0 && Sum(w[..2]) == 2.0 && Sum(w) == 102.0;
    assert SquaredDeviation(w[..2][..1], 34.0) == 1089.0;
    assert SquaredDeviation(w[..2], 34.0) == 2178.0;
    assert SquaredDeviation(w, 34.0) == 6534.0;
  }

  /**
    * The window [10, 10, 10, 10, 1000] has mean 208 and population variance
    * 396^2, and 3^2 * 156816 >= 792^2, so 1000 is not flagged.
    */
  lemma InflatedWindowStatistics(w: seq<real>)
    requires w == [10.0, 10.0, 10.0, 10.0, 1000.0]
    ensures Mean(w) == 208.0 && Variance(w) == 156816.0
    ensures Classify(w, 5, 1000.0, 3.0) == Detection(false, 208.0, Score(792.0, 156816.0))
  {
    var w1, w2, w3, w4 := w[..1], w[..2], w[..3], w[..4];
    assert w4[..3] == w3 && w3[..2] == w2 && w2[..1] == w1 && w1[..0] == [];
    assert Sum(w1) == 10.0 && Sum(w2) == 20.0 && Sum(w3) == 30.0 && Sum(w4) == 40.0;
    assert Sum(w) == 1040.0;
    assert SquaredDeviation(w1, 208.0) == 39204.0;
    assert SquaredDeviation(w2, 208.0) == 78408.0;
    assert SquaredDeviation(w3, 208.0) == 117612.0;
    assert SquaredDeviation(w4, 208.0) == 156816.0;
    assert SquaredDeviation(w, 208.0) == 784080.0;
  }

  /** Capacity 2: after 1, 2, 3 the first value has been evicted and the window is [2, 3]. */
  method OldestIsEvicted() returns (window: seq<real>)
    ensures window == [2.0, 3.0]
  {
    var detector := new Detector(2);
    var _ := detector.Detect(1.0);
    var _ := detector.Detect(2.0);
    var _ := detector.Detect(3.0);
    window := detector.window;
  }
}
