/** The adaptive interval controller: halve the shared polling interval under high activity,
    double it otherwise, within the configured bounds. */
module Interval {

  function MaxReal(a: real, b: real): (r: real)
    ensures r >= a && r >= b && (r == a || r == b)
  {
    if a >= b then a else b
  }

  function MinReal(a: real, b: real): (r: real)
    ensures r <= a && r <= b && (r == a || r == b)
  {
    if a <= b then a else b
  }

  /** The activity count above which the interval is halved. */
  const HighActivity: int := 5

  /** The interval after one adjustment, given the path's activity count. */
  function NextInterval(activity: int, interval: real, minInterval: real, maxInterval: real): (r: real)
    // more than five changes: the larger of the minimum and half the interval
    ensures activity > HighActivity ==> r >= minInterval && r >= interval / 2.0 && (r == minInterval || r == interval / 2.0)
    // otherwise: the smaller of the maximum and twice the interval
    ensures activity <= HighActivity ==> r <= maxInterval && r <= interval * 2.0 && (r == maxInterval || r == interval * 2.0)
    // a bounded interval stays bounded (intervals are durations: the bounds are non-negative)
    ensures 0.0 <= minInterval <= interval <= maxInterval ==> minInterval <= r <= maxInterval
    // halving never lengthens and doubling never shortens a non-negative bounded interval
    ensures 0.0 <= interval && minInterval <= interval ==> (activity > HighActivity ==> r <= interval)
    ensures 0.0 <= interval <= maxInterval ==> (activity <= HighActivity ==> r >= interval)
  {
    if activity > HighActivity then MaxReal(minInterval, interval / 2.0)
    else MinReal(maxInterval, interval * 2.0)
  }

  /** The interval after `n` quiet adjustments in a row: `n` cappings of a doubling. */
  function Grown(interval: real, maxInterval: real, n: nat): real
    decreases n
  {
    if n == 0 then interval else Grown(MinReal(maxInterval, interval * 2.0), maxInterval, n - 1)
  }

  /** Quiet adjustments only lengthen a bounded, non-negative interval and keep it within the
      bounds. */
  lemma {:induction false} GrownBounded(interval: real, minInterval: real, maxInterval: real, n: nat)
    requires 0.0 <= interval && minInterval <= interval <= maxInterval
    ensures interval <= Grown(interval, maxInterval, n) <= maxInterval
    decreases n
  {
    if n > 0 {
      var next := MinReal(maxInterval, interval * 2.0);
      GrownBounded(next, minInterval, maxInterval, n - 1);
    }
  }
}
