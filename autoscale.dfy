/** The load monitor of the API gateway (api_gateway/autoscale.py). Every
    minute `monitor_load` appends one load sample to the module-level list
    `historical_data`, asks `predict_load` for the next period's load on a
    scale of 1 to 10, and raises a scale-up or scale-down alert once the
    history holds more than 20 samples. The random samples and the linear
    regression's estimate are inputs here: `estimator` stands for fitting
    the regression to the history and predicting at its length. */
module Autoscale {
  const MIN_HISTORY_FOR_REGRESSION: nat := 10
  const MIN_HISTORY_FOR_ALERTS: nat := 20
  const MIN_PREDICTION: int := 1
  const MAX_PREDICTION: int := 10
  const SCALE_UP_ABOVE: int := 8
  const SCALE_DOWN_BELOW: int := 3

  datatype Alert = ScaleUp | ScaleDown | NoAlert

  /** Python's `int(x)` for a finite float: truncation toward zero. */
  function Trunc(x: real): (n: int)
    ensures 0.0 <= x ==> n as real <= x < n as real + 1.0
    ensures x < 0.0 ==> n as real - 1.0 < x <= n as real
  {
    if x >= 0.0 then x.Floor else -((-x).Floor)
  }

  /** `max(1, min(10, n))`. */
  function Clamp(n: int): (r: int)
    ensures MIN_PREDICTION <= r <= MAX_PREDICTION
    ensures MIN_PREDICTION <= n <= MAX_PREDICTION ==> r == n
    ensures n < MIN_PREDICTION ==> r == MIN_PREDICTION
    ensures n > MAX_PREDICTION ==> r == MAX_PREDICTION
  {
    if n > MAX_PREDICTION then MAX_PREDICTION
    else if n < MIN_PREDICTION then MIN_PREDICTION
    else n
  }

  /** `predict_load`: with fewer than 10 samples, the random value
      `fallback` drawn from 1 to 5; otherwise the clamped, truncated
      regression estimate for the history. */
  function PredictLoad(history: seq<int>, fallback: int, estimator: seq<int> -> real): (p: int)
    requires 1 <= fallback <= 5
    ensures MIN_PREDICTION <= p <= MAX_PREDICTION
    ensures |history| < MIN_HISTORY_FOR_REGRESSION ==> 1 <= p <= 5 && p == fallback
  {
    if |history| < MIN_HISTORY_FOR_REGRESSION then fallback
    else Clamp(Trunc(estimator(history)))
  }

  /** The `if`/`elif` of `monitor_load`, given the prediction and the
      number of samples. */
  function Decide(predicted: int, samples: nat): (a: Alert)
    ensures a == ScaleUp <==> predicted > SCALE_UP_ABOVE && samples > MIN_HISTORY_FOR_ALERTS
    ensures a == ScaleDown <==> predicted < SCALE_DOWN_BELOW && samples > MIN_HISTORY_FOR_ALERTS
    ensures samples <= MIN_HISTORY_FOR_ALERTS ==> a == NoAlert
  {
    if predicted > SCALE_UP_ABOVE && samples > MIN_HISTORY_FOR_ALERTS then ScaleUp
    else if predicted < SCALE_DOWN_BELOW && samples > MIN_HISTORY_FOR_ALERTS then ScaleDown
    else NoAlert
  }

  /** A short history never consults the samples or the estimator. */
  lemma ShortHistoryIgnoresSamples(h1: seq<int>, h2: seq<int>, fallback: int,
                                   e1: seq<int> -> real, e2: seq<int> -> real)
    requires 1 <= fallback <= 5
    requires |h1| < MIN_HISTORY_FOR_REGRESSION && |h2| < MIN_HISTORY_FOR_REGRESSION
    ensures PredictLoad(h1, fallback, e1) == PredictLoad(h2, fallback, e2)
  {
  }

  /** With enough history the estimate is truncated toward zero and then
      clamped: below 2 it gives 1, from 10 on it gives 10, and in between
      its integer part. */
  lemma PredictionFromEstimate(history: seq<int>, fallback: int, estimator: seq<int> -> real)
    requires 1 <= fallback <= 5 && |history| >= MIN_HISTORY_FOR_REGRESSION
    ensures var p := PredictLoad(history, fallback, estimator);
      var x := estimator(history);
      (x < 2.0 ==> p == 1) &&
      (x >= 10.0 ==> p == 10) &&
      (1.0 <= x < 11.0 ==> p as real <= x < p as real + 1.0)
  {
  }

  /** Once more than 20 samples are held, a scale-up alert is raised
      exactly when the estimate is at least 9 and a scale-down alert
      exactly when it is below 3. */
  lemma AlertFromEstimate(history: seq<int>, fallback: int, estimator: seq<int> -> real)
    requires 1 <= fallback <= 5 && |history| > MIN_HISTORY_FOR_ALERTS
    ensures var a := Decide(PredictLoad(history, fallback, estimator), |history|);
      (a == ScaleUp <==> estimator(history) >= 9.0) &&
      (a == ScaleDown <==> estimator(history) < 3.0)
  {
    var x := estimator(history);
    var n := Trunc(x);
    assert n > 8 <==> x >= 9.0;
    assert n < 3 <==> x < 3.0;
  }

  /** One tick's inputs: the random sample and the random fallback. */
  datatype Reading = Reading(load: int, fallback: int)

  predicate ReadingInRange(r: Reading) {
    1 <= r.load <= 100 && 1 <= r.fallback <= 5
  }

  /** The alerts of successive ticks starting from `history`. */
  function Alerts(history: seq<int>, readings: seq<Reading>, estimator: seq<int> -> real): (alerts: seq<Alert>)
    requires forall i | 0 <= i < |readings| :: ReadingInRange(readings[i])
    ensures |alerts| == |readings|
    decreases |readings|
  {
    if readings == [] then []
    else
      assert ReadingInRange(readings[0]);
      var h := history + [readings[0].load];
      [Decide(PredictLoad(h, readings[0].fallback, estimator), |h|)] +
      Alerts(h, readings[1..], estimator)
  }

  /** The history after successive ticks: the samples in order. */
  function HistoryAfter(history: seq<int>, readings: seq<Reading>): (h: seq<int>)
    ensures |h| == |history| + |readings|
    decreases |readings|
  {
    if readings == [] then history
    else HistoryAfter(history + [readings[0].load], readings[1..])
  }

  /** Ticks only append: the history keeps every earlier sample and gains
      the new ones, in order, with nothing evicted. */
  lemma {:induction false} HistoryIsAppendOnly(history: seq<int>, readings: seq<Reading>)
    ensures HistoryAfter(history, readings) ==
      history + seq(|readings|, i requires 0 <= i < |readings| => readings[i].load)
    decreases |readings|
  {
    if readings != [] {
      HistoryIsAppendOnly(history + [readings[0].load], readings[1..]);
      var rest := readings[1..];
      assert history + seq(|readings|, i requires 0 <= i < |readings| => readings[i].load) ==
        (history + [readings[0].load]) + seq(|rest|, i requires 0 <= i < |rest| => rest[i].load);
    }
  }

  /** The tick with `k` samples already held raises no alert while
      `|history| + k + 1 <= 20`; from an empty history, the first 20 ticks
      raise none. */
  lemma {:induction false} NoAlertWhileHistoryShort(history: seq<int>, readings: seq<Reading>,
                                                    estimator: seq<int> -> real)
    requires forall i | 0 <= i < |readings| :: ReadingInRange(readings[i])
    ensures forall i | 0 <= i < |readings| && |history| + i + 1 <= MIN_HISTORY_FOR_ALERTS ::
      Alerts(history, readings, estimator)[i] == NoAlert
    decreases |readings|
  {
    if readings != [] {
      var h := history + [readings[0].load];
      NoAlertWhileHistoryShort(h, readings[1..], estimator);
      var alerts := Alerts(history, readings, estimator);
      var rest := Alerts(h, readings[1..], estimator);
      assert forall i | 1 <= i < |readings| :: alerts[i] == rest[i - 1];
    }
  }

  lemma FirstTwentyTicksQuiet(readings: seq<Reading>, estimator: seq<int> -> real)
    requires forall i | 0 <= i < |readings| :: ReadingInRange(readings[i])
    ensures forall i | 0 <= i < |readings| && i < MIN_HISTORY_FOR_ALERTS ::
      Alerts([], readings, estimator)[i] == NoAlert
  {
    NoAlertWhileHistoryShort([], readings, estimator);
  }

  /** The module-level state of autoscale.py. */
  class LoadMonitor {
    var historicalData: seq<int>

    constructor ()
      ensures historicalData == []
    {
      historicalData := [];
    }

    /** `monitor_load`: record the sample, predict from the history that
        now includes it, and decide on an alert. */
    method MonitorLoad(currentLoad: int, fallback: int, estimator: seq<int> -> real)
      returns (predicted: int, alert: Alert)
      requires 1 <= currentLoad <= 100 && 1 <= fallback <= 5
      modifies this
      ensures historicalData == old(historicalData) + [currentLoad]
      ensures predicted == PredictLoad(historicalData, fallback, estimator)
      ensures alert == Decide(predicted, |historicalData|)
    {
      historicalData := historicalData + [currentLoad];
      predicted := PredictLoad(historicalData, fallback, estimator);
      if predicted > SCALE_UP_ABOVE && |historicalData| > MIN_HISTORY_FOR_ALERTS {
        alert := ScaleUp;
      } else if predicted < SCALE_DOWN_BELOW && |historicalData| > MIN_HISTORY_FOR_ALERTS {
        alert := ScaleDown;
      } else {
        alert := NoAlert;
      }
    }
  }
}
