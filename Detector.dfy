/**
  * The z-score anomaly detector: a sliding window of the most recent values,
  * a warm-up period until the window is full, and the rule that flags the
  * newest value when its z-score against the window exceeds the threshold.
  *
  * The standard deviation is the square root of the population variance.
  * Exact reals have no computable square root, so a z-score is carried as the
  * pair (offset from the mean, variance): it stands for offset / sqrt(variance),
  * and the threshold test is decided on squares. `ZScoreRule` shows that this
  * agrees with |offset / sd| > threshold for the standard deviation sd.
  */
module ZScore {
  import opened Stats
  import opened SlidingWindow

  /** A z-score offset / sqrt(variance); Score(0.0, 0.0) is the score 0. */
  datatype Score = Score(offset: real, variance: real)

  /** What `detect` returns: the flag, the window mean and the z-score. */
  datatype Detection = Detection(isAnomaly: bool, mean: real, score: Score)

  /** The result of a call that computed no statistics: (False, 0, 0). */
  const Quiet := Detection(false, 0.0, Score(0.0, 0.0))

  /** `sd` is the standard deviation belonging to `variance`. */
  ghost predicate IsStdDev(variance: real, sd: real)
  {
    sd >= 0.0 && Square(sd) == variance
  }

  function Abs(x: real): real
  {
    if x < 0.0 then -x else x
  }

  /**
    * |offset / sqrt(variance)| > threshold, for a positive variance, decided
    * without the square root.
    */
  predicate Exceeds(offset: real, variance: real, threshold: real)
  {
    threshold < 0.0 || threshold * threshold * variance < Square(offset)
  }

  /**
    * The classification of the newest value `data` against the window as it
    * is after `data` was appended, for a detector of the given capacity.
    */
  function Classify(window: seq<real>, capacity: nat, data: real, threshold: real): Detection
    requires capacity > 0
  {
    if |window| >= capacity then
      var mean := Mean(window);
      var variance := Variance(window);
      if variance == 0.0 then Detection(false, mean, Score(0.0, 0.0))
      else Detection(Exceeds(data - mean, variance, threshold), mean, Score(data - mean, variance))
    else Quiet
  }

  /** While the window is not yet full, nothing is flagged and (False, 0, 0) is returned. */
  lemma WarmupIsQuiet(window: seq<real>, capacity: nat, data: real, threshold: real)
    requires 0 < capacity && |window| < capacity
    ensures Classify(window, capacity, data, threshold) == Quiet
  {
  }

  /**
    * Once the window is full the returned mean is the arithmetic mean of the
    * window, newest value included, and lies between the window's extremes.
    */
  lemma ActiveMean(window: seq<real>, capacity: nat, data: real, threshold: real, lo: real, hi: real)
    requires 0 < capacity <= |window|
    requires forall i :: 0 <= i < |window| ==> lo <= window[i] <= hi
    ensures Classify(window, capacity, data, threshold).mean == Mean(window)
    ensures lo <= Classify(window, capacity, data, threshold).mean <= hi
  {
    MeanWithinBounds(window, lo, hi);
  }

  /**
    * A full window whose values are all equal has standard deviation zero:
    * nothing is flagged, whatever the newest value, and the result is
    * (False, mean, 0) with the mean equal to the common value.
    */
  lemma ConstantWindowIsQuiet(window: seq<real>, capacity: nat, data: real, threshold: real)
    requires 0 < capacity <= |window| && Constant(window)
    ensures Classify(window, capacity, data, threshold)
         == Detection(false, window[0], Score(0.0, 0.0))
  {
    VarianceZeroIffConstant(window);
    MeanOfConstant(window);
  }

  /**
    * When the full window is not constant, its standard deviation sd is
    * positive, the score is (data - mean) / sd, and the value is flagged
    * exactly when |(data - mean) / sd| > threshold (strictly).
    */
  lemma ZScoreRule(window: seq<real>, capacity: nat, data: real, threshold: real, sd: real)
    requires 0 < capacity <= |window| && !Constant(window)
    requires IsStdDev(Variance(window), sd)
    ensures sd > 0.0
    ensures Classify(window, capacity, data, threshold)
         == Detection(Abs((data - Mean(window)) / sd) > threshold, Mean(window),
                      Score(data - Mean(window), Variance(window)))
  {
    VarianceZeroIffConstant(window);
    SquareSign(sd);
    assert sd != 0.0;
    ThresholdOnSquares(data - Mean(window), sd, threshold);
  }

  /**
    * For a positive standard deviation sd, comparing |offset / sd| with the
    * threshold is the same as comparing offset^2 with threshold^2 * sd^2.
    */
  lemma ThresholdOnSquares(offset: real, sd: real, threshold: real)
    requires sd > 0.0
    ensures Exceeds(offset, Square(sd), threshold) <==> Abs(offset / sd) > threshold
  {
    var z := Abs(offset / sd);
    SquareSign(sd);
    assert Abs(offset) == z * sd by {
      QuotientTimesDivisor(offset, sd);
    }
    if threshold >= 0.0 {
      SquareMonotone(threshold, z);
      assert Square(z) * Square(sd) == Square(Abs(offset)) == Square(offset);
      assert Square(threshold) * Square(sd) == threshold * threshold * Square(sd);
      ScaleByPositive(Square(threshold), Square(z), Square(sd));
    }
  }

  /** For non-negative reals, a < b exactly when a^2 < b^2. */
  lemma SquareMonotone(a: real, b: real)
    requires a >= 0.0 && b >= 0.0
    ensures a < b <==> Square(a) < Square(b)
  {
    if a < b {
      assert Square(b) - Square(a) == Product(b - a, b + a);
      ProductPositive(b - a, b + a);
    } else if b < a {
      assert Square(a) - Square(b) == Product(a - b, a + b);
      ProductPositive(a - b, a + b);
    }
  }

  /** Multiplying both sides by a positive factor keeps a strict inequality, and only it. */
  lemma ScaleByPositive(a: real, b: real, c: real)
    requires c > 0.0
    ensures a < b <==> a * c < b * c
  {
    if a < b {
      assert b * c - a * c == Product(b - a, c);
      ProductPositive(b - a, c);
    } else if b < a {
      assert a * c - b * c == Product(a - b, c);
      ProductPositive(a - b, c);
    }
  }

  /** A value equal to the window mean is never flagged by a non-negative threshold. */
  lemma MeanValueIsNotFlagged(window: seq<real>, capacity: nat, threshold: real)
    requires 0 < capacity <= |window| && threshold >= 0.0
    ensures !Classify(window, capacity, Mean(window), threshold).isAnomaly
  {
    SquareSign(threshold);
    assert Square(0.0) == 0.0;
    assert threshold * threshold * Variance(window) >= 0.0 by {
      assert threshold * threshold == Square(threshold);
      ScaleNonNegative(Square(threshold), Variance(window));
    }
  }

  /** The product of two non-negative reals is non-negative. */
  lemma ScaleNonNegative(a: real, b: real)
    requires a >= 0.0 && b >= 0.0
    ensures a * b >= 0.0
  {
    if a > 0.0 && b > 0.0 {
      ProductPositive(a, b);
    }
  }

  /**
    * The newest value belongs to its own window, so its squared offset from
    * the mean is at most (N - 1) times the variance: |z| <= sqrt(N - 1).
    */
  lemma ScoreBound(window: seq<real>, capacity: nat, data: real, threshold: real)
    requires 0 < capacity <= |window| && window[|window| - 1] == data
    ensures var score := Classify(window, capacity, data, threshold).score;
            Square(score.offset) <= (|window| as real - 1.0) * score.variance
  {
    NewestDeviationBound(window);
  }

  /**
    * Hence a full window of N values with N - 1 <= threshold^2 never flags its
    * newest value: with the default threshold 3.0, windows of at most ten
    * values can never report an anomaly.
    */
  lemma SmallWindowIsBlind(window: seq<real>, capacity: nat, data: real, threshold: real)
    requires 0 < capacity <= |window| && window[|window| - 1] == data
    requires threshold >= 0.0 && (|window| as real - 1.0) <= threshold * threshold
    ensures !Classify(window, capacity, data, threshold).isAnomaly
  {
    var v := Variance(window);
    NewestDeviationBound(window);
    var slack := threshold * threshold - (|window| as real - 1.0);
    ScaleNonNegative(slack, v);
    assert slack * v == threshold * threshold * v - (|window| as real - 1.0) * v;
  }

  /**
    * The detector. `window` is the bounded queue of main.py's
    * `deque(maxlen=window_size)`, `capacity` its maximum length and `threshold`
    * the z-score threshold. The ghost `history` is every value ever passed
    * to `Detect`; the window is always its newest `capacity` values.
    */
  class Detector {
    var window: seq<real>
    const capacity: nat
    var threshold: real
    ghost var history: seq<real>

    ghost predicate Valid()
      reads this
    {
      capacity > 0 && window == Newest(history, capacity)
    }

    constructor (windowSize: nat := 50, zScoreThreshold: real := 3.0)
      requires windowSize > 0
      ensures Valid()
      ensures window == [] && history == []
      ensures capacity == windowSize && threshold == zScoreThreshold
    {
      window := [];
      capacity := windowSize;
      threshold := zScoreThreshold;
      history := [];
    }

    /**
      * Appends `data` to the window (evicting the oldest value when the window
      * is full) and classifies it against the window as it then is.
      */
    method Detect(data: real) returns (d: Detection)
      requires Valid()
      modifies this`window, this`history
      ensures Valid()
      ensures history == old(history) + [data]
      ensures old(|window|) < capacity ==> window == old(window) + [data]
      ensures old(|window|) == capacity ==> window == old(window[1..]) + [data]
      ensures |window| == if |history| < capacity then |history| else capacity
      ensures threshold == old(threshold)
      ensures d == Classify(window, capacity, data, threshold)
    {
      NewestAppend(history, capacity, data);
      NewestLength(history + [data], capacity);
      AppendEvictsOldest(window, capacity, data);
      if |window| == capacity {
        window := window[1..];
      }
      window := window + [data];
      history := history + [data];
      if |window| >= capacity {
        var mean := Mean(window);
        var stdDevSquared := Variance(window);
        if stdDevSquared == 0.0 {
          return Detection(false, mean, Score(0.0, 0.0));
        }
        var offset := data - mean;
        return Detection(Exceeds(offset, stdDevSquared, threshold), mean, Score(offset, stdDevSquared));
      }
      return Quiet;
    }
  }
}
