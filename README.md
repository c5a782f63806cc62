# Z-score anomaly detector

A Dafny model of the anomaly detector in `main.py` of the CobbleStone Energy
research project, together with the step of the live plot that feeds every
sample of the stream to the detector and logs the flagged ones.

- `ZScoreAnomalyDetector` keeps a sliding window of the most recent values in
  a bounded queue (`deque(maxlen=window_size)`).
- For each new value, `detect` appends it to the window. While the window is
  not full it returns `(False, 0, 0)`.
- Once the window is full, `detect` computes the mean and the population
  standard deviation of the window, the new value included. A window with
  standard deviation zero gives `(False, mean, 0)`.
- Otherwise the result is `(|z| > threshold, mean, z)`, where
  `z = (value - mean) / std`.
- The live plot's `update` runs the detector on each frame `(t, value)`.
  When the value is flagged, it appends `(t, value, mean, z)` to its list of
  detected anomalies.

The model is in five modules:

- `Stats` (`Stats.dfy`): sum, mean, squared deviation and population
  variance over exact reals. Its lemmas cover the bounds on the mean, zero
  variance exactly for constant windows, and Samuelson's inequality
  (the newest value's squared distance from the mean is at most (N - 1)
  times the variance).
- `SlidingWindow` (`Window.dfy`): the bounded queue as "the newest n values
  of the stream", together with the lemmas that appending and evicting keep
  it so.
- `ZScore` (`Detector.dfy`): the detector as a class whose `Detect` method
  updates the window in place. It is proved against the classification
  function `Classify`, about which the properties of the z-score rule are
  proved.
- `LivePlot` (`LivePlot.dfy`): the anomaly log as a function of the stream,
  and a `Monitor` class whose `Update` method keeps its log equal to that
  function.
- `Scenarios` (`Scenarios.dfy`): three small runs of the detector, with
  their outcomes stated and proved.

Real numbers are exact and have no square root. A z-score is therefore
carried as the pair `Score(offset, variance)`, which stands for
`offset / sqrt(variance)`. The flag is decided on squares:
`threshold < 0 || threshold^2 * variance < offset^2`.
`ZScore.ZScoreRule` proves that this test agrees with `|offset / sd| > threshold`
for every standard deviation `sd`, i.e. every `sd >= 0` with `sd^2 == variance`.

Because the newest value belongs to the window it is judged against, its
z-score is at most `sqrt(N - 1)` in absolute value for a window of N values
(`ZScore.ScoreBound`). So a detector with a non-negative threshold whose
window satisfies `N - 1 <= threshold^2` can never flag anything (`ZScore.SmallWindowIsBlind`,
`LivePlot.SmallWindowLogsNothing`). With the default threshold 3.0 that
covers every window of ten values or fewer. The default window of 50 values
can flag values with `|z|` between 3 and 7.

## Model

| member | source | states |
|---|---|---|
| ZScore.Detector.constructor | main.py:58-60 | the window starts empty, its maximum length is `window_size` (which must be positive), the threshold is `z_score_threshold`; defaults 50 and 3.0 |
| ZScore.Detector.Detect | main.py:62-75 | appends the value, evicting the oldest one when the window is full; the window stays the newest `capacity` values ever given, its length is min(values given, capacity), the capacity is a constant and the threshold does not change, and the result is `Classify` of the window after the append |
| ZScore.WarmupIsQuiet | main.py:64-75 | while the window holds fewer than `capacity` values the result is (False, 0, 0) |
| ZScore.ActiveMean | main.py:64-66 | once the window is full the returned mean is the mean of the window, newest value included, and lies between the window's smallest and largest values |
| ZScore.ConstantWindowIsQuiet | main.py:67-69 | a full window of equal values has standard deviation zero, so the result is (False, mean, 0) with mean equal to that value, whatever the threshold |
| ZScore.ZScoreRule | main.py:67-74 | for a full non-constant window the standard deviation is positive, the score is (value - mean) / sd, and the value is flagged exactly when that score's absolute value is strictly greater than the threshold |
| ZScore.ThresholdOnSquares | main.py:71-74 | for positive sd, `|offset / sd| > threshold` holds exactly when the squared test holds, for thresholds of any sign |
| ZScore.MeanValueIsNotFlagged | main.py:71-74 | a value equal to the window mean is never flagged by a non-negative threshold |
| ZScore.ScoreBound | main.py:63-74 | the newest value's squared offset from the mean is at most (N - 1) times the variance, i.e. the z-score is at most sqrt(N - 1) in absolute value |
| ZScore.SmallWindowIsBlind | main.py:63-74 | a full window of N values with N - 1 <= threshold^2 (and a non-negative threshold) never flags its newest value |
| Stats.MeanWithinBounds | main.py:66 | the mean of values that lie in [lo, hi] lies in [lo, hi] |
| Stats.MeanOfConstant | main.py:66 | the mean of equal values is that value |
| Stats.VarianceZeroIffConstant | main.py:67-68 | the population variance is zero exactly when all values of the window are equal |
| Stats.NewestDeviationBound | main.py:66-67 | Samuelson's inequality for the last value: its squared distance from the mean is at most (N - 1) times the population variance |
| Stats.DeviationSumBound | main.py:67 | Cauchy-Schwarz for deviations: (sum - N * m)^2 <= N * (sum of squared deviations from m) |
| SlidingWindow.NewestLength | main.py:59 | the bounded queue holds min(values appended, maxlen) values |
| SlidingWindow.NewestIsSuffix | main.py:59 | the queue's contents are the stream's last values, in arrival order |
| SlidingWindow.NewestAppend | main.py:63 | appending to the newest n values of a stream gives the newest n values of the extended stream |
| SlidingWindow.AppendEvictsOldest | main.py:63 | appending below capacity adds at the end; at capacity the first (oldest) value is dropped and the new one added at the end |
| LivePlot.WarmupSampleIsQuiet | main.py:117 | the first capacity - 1 samples of the stream all get (False, 0, 0) |
| LivePlot.LogStep | main.py:113-123 | one more frame: the detector's history becomes the values of the longer stream, its result is that frame's detection, and the log gains that frame's record exactly when the result flags it |
| LivePlot.LogIsFlaggedSubsequence | main.py:117-123 | the log holds, in arrival order, exactly the flagged samples, each as (time, value, mean, z-score) with the mean and score the detector returned; none is among the first capacity - 1 samples |
| LivePlot.LogInTimeOrder | main.py:113-123 | if the stream's time stamps strictly increase, so do the log's |
| LivePlot.LogOnlyGrows | main.py:118-123 | records are never removed or changed: the log of a prefix of the stream is a prefix of the log |
| LivePlot.NothingFlaggedNothingLogged | main.py:118-123 | when no result is flagged the log is empty |
| LivePlot.SmallWindowLogsNothing | main.py:103-123 | with capacity - 1 <= threshold^2 and a non-negative threshold the log stays empty for every stream |
| LivePlot.Monitor.constructor | main.py:91-103 | the log starts empty and the detector is created with the given window size and threshold |
| LivePlot.Monitor.Update | main.py:113-123 | runs the detector on the frame's value and appends (time, value, mean, z-score) exactly when it is flagged; the log stays equal to the log of the whole stream seen so far and the result is the frame's detection |
| Scenarios.SpikeInSmallWindow | main.py:62-75 | capacity 3, threshold 3, stream 1, 1, 1, 1, 1, 1, 100: calls 1-2 are warm-up (False, 0, 0), calls 3-6 see a full constant window and give (False, 1, 0), and the spike is not flagged, with mean 34 and z-score 66 / sqrt(2178) |
| Scenarios.SpikeInflatesBaseline | main.py:62-75 | capacity 5, threshold 3, nine 10s then 1000: calls 1-4 give (False, 0, 0), calls 5-9 give (False, 10, 0), and the spike gets mean 208 and standard deviation 396, so its z-score is exactly 2 and it is not flagged |
| Scenarios.SpikeWindowStatistics | main.py:66-74 | the window [1, 1, 100] has mean 34 and variance 2178, and 100 is not flagged against it |
| Scenarios.InflatedWindowStatistics | main.py:66-74 | the window [10, 10, 10, 10, 1000] has mean 208 and variance 156816 = 396^2, and 1000 is not flagged against it |
| Scenarios.OldestIsEvicted | main.py:59-63 | with capacity 2, after 1, 2, 3 the window is [2, 3] |

## Left out

- `data_stream` (the synthetic generator with its randomness and clock) is not modelled. The stream is a parameter: a sequence of `Sample(time, value)` frames.
- Plotting and the user interface are not modelled: the figure and axes, the plot lists `xdata`/`ydata` and their trimming to `window_size`, the parallel plot lists `anomaly_x`, `anomaly_y`, `anomaly_mean` and `anomaly_deviation`, the Save button, and `FuncAnimation`.
- The `is_running` flag, which stops the stream once the log is saved, is not modelled.
- The console message printed for each anomaly is not modelled.
- `save_anomalies_to_csv` is not modelled: it is file I/O that writes the header `Time,Value,Mean,Deviation` and then the log's records.
- Numbers are exact reals. IEEE floating point, its rounding, NaN and infinities are not modelled: the float `np.mean`/`np.std` can differ from the exact mean and deviation in the last bits, which can decide `std_dev == 0` and the comparison at the threshold.
- ZScore.Detector.constructor: requires a positive window size. With `window_size=0` the Python queue stays empty and `np.mean` of it gives NaN with a warning. Negative or non-integer sizes raise an error in `deque`.
- LivePlot.Monitor.constructor: requires a positive detector window size, because it builds the detector with it; `live_plot(..., detector_window_size=0)` is excluded for the same reason.
- ZScore.Detector.Detect: the z-score is returned as `Score(offset, variance)`, standing for `offset / sqrt(variance)`, instead of a float, because exact reals have no square root. `ZScoreRule` relates it to the quotient for any square root.
- The integer `0` that Python returns for the mean and score during warm-up, and for the score of a constant window, is the real `0.0` here.
