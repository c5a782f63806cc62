/**
  * The anomaly log kept by the live plot's per-sample step: every sample of
  * the stream goes through the detector, and a record (time, value, mean,
  * z-score) is appended to the log exactly when the detector flags it.
  * The plotting around this step is not modelled.
  */
module LivePlot {
  import opened SlidingWindow
  import opened ZScore

  /** One frame of the stream: a time stamp and a value. */
  datatype Sample = Sample(time: int, value: real)

  /** One entry of the anomaly log: the row Time, Value, Mean, Deviation. */
  datatype AnomalyRecord = AnomalyRecord(time: int, value: real, mean: real, score: Score)

  /** The values of the samples, in arrival order. */
  function Values(samples: seq<Sample>): seq<real>
  {
    seq(|samples|, i requires 0 <= i < |samples| => samples[i].value)
  }

  function Record(frame: Sample, d: Detection): AnomalyRecord
  {
    AnomalyRecord(frame.time, frame.value, d.mean, d.score)
  }

  /**
    * What the detector returns for samples[i]: its window then holds the
    * newest `capacity` values up to and including samples[i].
    */
  function DetectionAt(capacity: nat, threshold: real, samples: seq<Sample>, i: nat): Detection
    requires 0 < capacity && i < |samples|
  {
    Classify(Newest(Values(samples[..i + 1]), capacity), capacity, samples[i].value, threshold)
  }

  /** What the detector returned for each sample, in arrival order. */
  function Detections(capacity: nat, threshold: real, samples: seq<Sample>): seq<Detection>
    requires 0 < capacity
  {
    seq(|samples|, i requires 0 <= i < |samples| => DetectionAt(capacity, threshold, samples, i))
  }

  /** The records appended for the flagged frames, in arrival order. */
  function Logged(frames: seq<Sample>, results: seq<Detection>): seq<AnomalyRecord>
    requires |frames| == |results|
  {
    if frames == [] then []
    else
      var k := |frames| - 1;
      Logged(frames[..k], results[..k])
      + if results[k].isAnomaly then [Record(frames[k], results[k])] else []
  }

  /** The positions of the flagged results, in arrival order. */
  function Positions(results: seq<Detection>): seq<nat>
  {
    if results == [] then []
    else
      var k := |results| - 1;
      Positions(results[..k]) + if results[k].isAnomaly then [k] else []
  }

  /** The anomaly log after the given samples went through the detector. */
  function Log(capacity: nat, threshold: real, samples: seq<Sample>): seq<AnomalyRecord>
    requires 0 < capacity
  {
    Logged(samples, Detections(capacity, threshold, samples))
  }

  predicate StrictlyIncreasingTimes(samples: seq<Sample>)
  {
    forall i, j :: 0 <= i < j < |samples| ==> samples[i].time < samples[j].time
  }

  /** Later samples do not change what the detector returned for earlier ones. */
  lemma DetectionsPrefix(capacity: nat, threshold: real, samples: seq<Sample>, k: nat)
    requires 0 < capacity && k <= |samples|
    ensures Detections(capacity, threshold, samples[..k]) == Detections(capacity, threshold, samples)[..k]
  {
    forall i | 0 <= i < k
      ensures DetectionAt(capacity, threshold, samples[..k], i) == DetectionAt(capacity, threshold, samples, i)
    {
      assert samples[..k][..i + 1] == samples[..i + 1];
    }
  }

  /**
    * One more sample. A detector whose history was the values of `samples`
    * and which is given the value of `frame` holds the values of the longer
    * stream; what it returns is the detection of the new sample; and the log
    * gains that sample's record exactly when the detection flags it.
    */
  lemma LogStep(capacity: nat, threshold: real, samples: seq<Sample>, frame: Sample,
                history: seq<real>, d: Detection)
    requires 0 < capacity && history == Values(samples) + [frame.value]
    requires d == Classify(Newest(history, capacity), capacity, frame.value, threshold)
    ensures history == Values(samples + [frame])
    ensures d == DetectionAt(capacity, threshold, samples + [frame], |samples|)
    ensures Log(capacity, threshold, samples + [frame])
         == Log(capacity, threshold, samples) + if d.isAnomaly then [Record(frame, d)] else []
  {
    var longer := samples + [frame];
    var k := |samples|;
    assert longer[..k + 1] == longer;
    assert longer[..k] == samples;
    assert Values(longer) == Values(samples) + [frame.value];
    DetectionsPrefix(capacity, threshold, longer, k);
    var results := Detections(capacity, threshold, longer);
    assert results[..k] == Detections(capacity, threshold, samples);
    assert Logged(longer, results)
        == Logged(samples, results[..k])
           + if results[k].isAnomaly then [Record(frame, results[k])] else [];
  }

  /**
    * The first capacity - 1 samples arrive while the window is still filling
    * up, so the detector returns (False, 0, 0) for each of them.
    */
  lemma WarmupSampleIsQuiet(capacity: nat, threshold: real, samples: seq<Sample>, i: nat)
    requires 0 < capacity && i < |samples| && i + 1 < capacity
    ensures DetectionAt(capacity, threshold, samples, i) == Quiet
  {
    NewestLength(Values(samples[..i + 1]), capacity);
  }

  /**
    * The positions are ascending, each is that of a flagged result, and every
    * flagged result is listed.
    */
  lemma {:induction false} PositionsExactly(results: seq<Detection>)
    ensures forall r :: 0 <= r < |Positions(results)| ==>
              Positions(results)[r] < |results| && results[Positions(results)[r]].isAnomaly
    ensures forall r, t :: 0 <= r < t < |Positions(results)| ==> Positions(results)[r] < Positions(results)[t]
    ensures forall i :: 0 <= i < |results| && results[i].isAnomaly ==> i in Positions(results)
  {
    if results != [] {
      var k := |results| - 1;
      var older := results[..k];
      PositionsExactly(older);
      assert forall i :: 0 <= i < k ==> older[i] == results[i];
    }
  }

  /** The records are those of the flagged frames, in order: a subsequence of the frames. */
  lemma {:induction false} LoggedIsSubsequence(frames: seq<Sample>, results: seq<Detection>)
    requires |frames| == |results|
    ensures |Logged(frames, results)| == |Positions(results)|
    ensures forall r :: 0 <= r < |Positions(results)| ==>
              Positions(results)[r] < |results|
              && Logged(frames, results)[r] == Record(frames[Positions(results)[r]], results[Positions(results)[r]])
  {
    PositionsExactly(results);
    if frames != [] {
      var k := |frames| - 1;
      LoggedIsSubsequence(frames[..k], results[..k]);
      PositionsExactly(results[..k]);
    }
  }

  /** Records are only ever appended: the log of a prefix is a prefix of the log. */
  lemma {:induction false} LoggedOnlyGrows(frames: seq<Sample>, results: seq<Detection>, k: nat)
    requires |frames| == |results| && k <= |frames|
    ensures Logged(frames[..k], results[..k]) <= Logged(frames, results)
    decreases |frames| - k
  {
    if k < |frames| {
      var n := |frames| - 1;
      LoggedOnlyGrows(frames[..n], results[..n], k);
      assert frames[..n][..k] == frames[..k];
      assert results[..n][..k] == results[..k];
    } else {
      assert frames[..k] == frames && results[..k] == results;
    }
  }

  /** Nothing flagged, nothing logged. */
  lemma {:induction false} NothingFlaggedNothingLogged(frames: seq<Sample>, results: seq<Detection>)
    requires |frames| == |results|
    requires forall i :: 0 <= i < |results| ==> !results[i].isAnomaly
    ensures Logged(frames, results) == []
  {
    if frames != [] {
      var k := |frames| - 1;
      NothingFlaggedNothingLogged(frames[..k], results[..k]);
    }
  }

  /**
    * The log holds exactly the samples the detector flagged, in arrival order,
    * each with the mean and z-score the detector returned for it; none of them
    * is among the first capacity - 1 samples.
    */
  lemma LogIsFlaggedSubsequence(capacity: nat, threshold: real, samples: seq<Sample>)
    requires 0 < capacity
    ensures var f := Positions(Detections(capacity, threshold, samples));
            |Log(capacity, threshold, samples)| == |f|
            && (forall r, t :: 0 <= r < t < |f| ==> f[r] < f[t])
            && (forall r :: 0 <= r < |f| ==>
                  capacity - 1 <= f[r] < |samples|
                  && DetectionAt(capacity, threshold, samples, f[r]).isAnomaly
                  && Log(capacity, threshold, samples)[r]
                     == Record(samples[f[r]], DetectionAt(capacity, threshold, samples, f[r])))
            && (forall i :: 0 <= i < |samples| && DetectionAt(capacity, threshold, samples, i).isAnomaly ==> i in f)
  {
    var results := Detections(capacity, threshold, samples);
    PositionsExactly(results);
    LoggedIsSubsequence(samples, results);
    var f := Positions(results);
    forall r | 0 <= r < |f|
      ensures capacity - 1 <= f[r]
    {
      if f[r] + 1 < capacity {
        WarmupSampleIsQuiet(capacity, threshold, samples, f[r]);
      }
    }
    forall i | 0 <= i < |samples| && DetectionAt(capacity, threshold, samples, i).isAnomaly
      ensures i in f
    {
      assert results[i].isAnomaly;
    }
  }

  /** When the stream's time stamps increase, so do the log's. */
  lemma LogInTimeOrder(capacity: nat, threshold: real, samples: seq<Sample>)
    requires 0 < capacity && StrictlyIncreasingTimes(samples)
    ensures var log := Log(capacity, threshold, samples);
            forall r, t :: 0 <= r < t < |log| ==> log[r].time < log[t].time
  {
    var results := Detections(capacity, threshold, samples);
    PositionsExactly(results);
    LoggedIsSubsequence(samples, results);
  }

  /** Records are never removed: the log of a prefix of the stream is a prefix of the log. */
  lemma LogOnlyGrows(capacity: nat, threshold: real, samples: seq<Sample>, k: nat)
    requires 0 < capacity && k <= |samples|
    ensures Log(capacity, threshold, samples[..k]) <= Log(capacity, threshold, samples)
  {
    DetectionsPrefix(capacity, threshold, samples, k);
    LoggedOnlyGrows(samples, Detections(capacity, threshold, samples), k);
  }

  /**
    * With a non-negative threshold and capacity - 1 <= threshold^2 the log
    * stays empty whatever the stream: no window that small can produce a
    * z-score beyond the threshold.
    */
  lemma SmallWindowLogsNothing(capacity: nat, threshold: real, samples: seq<Sample>)
    requires 0 < capacity && threshold >= 0.0
    requires (capacity as real - 1.0) <= threshold * threshold
    ensures Log(capacity, threshold, samples) == []
  {
    var results := Detections(capacity, threshold, samples);
    forall i | 0 <= i < |results|
      ensures !results[i].isAnomaly
    {
      var values := Values(samples[..i + 1]);
      NewestLength(values, capacity);
      var window := Newest(values, capacity);
      if |window| >= capacity {
        NewestIsSuffix(values, capacity);
        assert window[|window| - 1] == samples[i].value;
        SmallWindowIsBlind(window, capacity, samples[i].value, threshold);
      }
    }
    NothingFlaggedNothingLogged(samples, results);
  }

  /**
    * The state of the live plot that matters to detection: the detector it
    * built, the list of detected anomalies it appends to, and (ghost) the
    * samples it has been given so far.
    */
  class Monitor {
    var detector: Detector
    var detectedAnomalies: seq<AnomalyRecord>
    ghost var samples: seq<Sample>

    ghost predicate Valid()
      reads this, detector
    {
      detector.Valid()
      && detector.history == Values(samples)
      && detectedAnomalies == Log(detector.capacity, detector.threshold, samples)
    }

    constructor (detectorWindowSize: nat := 50, zScoreThreshold: real := 3.0)
      requires detectorWindowSize > 0
      ensures Valid() && fresh(detector)
      ensures detectedAnomalies == [] && samples == []
      ensures detector.capacity == detectorWindowSize && detector.threshold == zScoreThreshold
    {
      detector := new Detector(detectorWindowSize, zScoreThreshold);
      detectedAnomalies := [];
      samples := [];
      assert Values([]) == [];
    }

    /**
      * One frame of the stream: run the detector on its value and, when it
      * flags the value, append (time, value, mean, z-score) to the log.
      * The detection is returned for the display.
      */
    method Update(frame: Sample) returns (d: Detection)
      requires Valid()
      modifies this, detector
      ensures Valid() && detector == old(detector)
      ensures detector.threshold == old(detector.threshold)
      ensures samples == old(samples) + [frame]
      ensures d == DetectionAt(detector.capacity, detector.threshold, samples, |samples| - 1)
      ensures detectedAnomalies == old(detectedAnomalies) + if d.isAnomaly then [Record(frame, d)] else []
    {
      ghost var before, capacity, threshold := samples, detector.capacity, detector.threshold;
      d := detector.Detect(frame.value);
      LogStep(capacity, threshold, before, frame, detector.history, d);
      if d.isAnomaly {
        detectedAnomalies := detectedAnomalies + [Record(frame, d)];
      }
      samples := samples + [frame];
    }
  }
}
