/** The three ways a counter series becomes rates, compared. */
module Rates {
  import opened Sequences
  import opened Detectors
  import opened Streams
  import opened Counters

  /** The endpoint-delta rate over a window, and whether there were enough samples. */
  function EndpointRate(samples: seq<RawSample>): (real, bool) {
    if |samples| < 2 then (0.0, false)
    else
      var pts := StableSort(samples, RawTime());
      var dt := pts[|pts| - 1].t - pts[0].t;
      if dt <= 0.0 then (0.0, true)
      else (Max(0.0, pts[|pts| - 1].value - pts[0].value) / dt, true)
  }

  /** Each rate times the time since the previous stamp. */
  function TimeWeighted(start: real, rates: seq<Sample>): real {
    if rates == [] then 0.0 else
    var n := |rates| - 1;
    TimeWeighted(start, rates[..n]) + rates[n].value * (rates[n].t - (if n == 0 then start else rates[n - 1].t))
  }

  function Rises(pts: seq<RawSample>): real {
    if |pts| < 2 then 0.0 else Rises(pts[..|pts| - 1]) + Max(0.0, pts[|pts| - 1].value - pts[|pts| - 2].value)
  }

  function Drops(pts: seq<RawSample>): real {
    if |pts| < 2 then 0.0 else Drops(pts[..|pts| - 1]) + Max(0.0, pts[|pts| - 2].value - pts[|pts| - 1].value)
  }

  predicate NeverDrops(pts: seq<RawSample>) {
    |pts| < 2 || (pts[|pts| - 2].value <= pts[|pts| - 1].value && NeverDrops(pts[..|pts| - 1]))
  }

  predicate NeverRises(pts: seq<RawSample>) {
    |pts| < 2 || (pts[|pts| - 2].value >= pts[|pts| - 1].value && NeverRises(pts[..|pts| - 1]))
  }

  lemma {:induction false} RisesAndDrops(pts: seq<RawSample>)
    requires pts != []
    ensures Rises(pts) - Drops(pts) == pts[|pts| - 1].value - pts[0].value
    ensures Rises(pts) >= 0.0 && Drops(pts) >= 0.0
    ensures Rises(pts) == 0.0 <==> NeverRises(pts)
    ensures Drops(pts) == 0.0 <==> NeverDrops(pts)
  {
    if |pts| >= 2 { RisesAndDrops(pts[..|pts| - 1]); }
  }

  /** Times strictly increase. */
  predicate Increasing(pts: seq<RawSample>) {
    |pts| < 2 || (pts[|pts| - 2].t < pts[|pts| - 1].t && Increasing(pts[..|pts| - 1]))
  }

  lemma {:induction false} DistinctIncreases(pts: seq<RawSample>)
    requires SortedBy(pts, RawTime()) && DistinctBy(pts, RawTime())
    ensures Increasing(pts)
  {
    if |pts| >= 2 {
      var i, j := |pts| - 2, |pts| - 1;
      assert RawTime()(pts[i]) <= RawTime()(pts[j]) && RawTime()(pts[i]) != RawTime()(pts[j]);
      DistinctIncreases(pts[..j]);
    }
  }

  lemma {:induction false} IncreasingSpan(pts: seq<RawSample>)
    requires |pts| >= 2 && Increasing(pts)
    ensures pts[0].t < pts[|pts| - 1].t
  {
    if |pts| > 2 { IncreasingSpan(pts[..|pts| - 1]); }
  }

  lemma DivideBack(a: real, b: real)
    requires b != 0.0
    ensures a / b * b == a
  {
  }

  lemma WeightedAppend(start: real, rates: seq<Sample>, s: Sample)
    ensures TimeWeighted(start, rates + [s])
         == TimeWeighted(start, rates) + s.value * (s.t - (if rates == [] then start else rates[|rates| - 1].t))
  {
    assert (rates + [s])[..|rates|] == rates;
  }

  /** With increasing times every step gives one rate, and the weighted rates add up to the rises. */
  lemma {:induction false} WeightedRises(pts: seq<RawSample>)
    requires pts != [] && Increasing(pts)
    ensures var rates := Steps(pts);
      && |rates| == |pts| - 1 && (rates != [] ==> rates[|rates| - 1].t == pts[|pts| - 1].t)
      && TimeWeighted(pts[0].t, rates) == Rises(pts)
  {
    if |pts| >= 2 {
      var n := |pts| - 1;
      WeightedRises(pts[..n]);
      var rise, dt := Max(0.0, pts[n].value - pts[n - 1].value), pts[n].t - pts[n - 1].t;
      DivideBack(rise, dt);
      WeightedAppend(pts[0].t, Steps(pts[..n]), Sample(pts[n].t, rise / dt));
      assert Steps(pts) == Steps(pts[..n]) + [Sample(pts[n].t, rise / dt)];
    }
  }

  lemma SortedCounter(samples: seq<RawSample>)
    requires |samples| >= 2 && DistinctBy(samples, RawTime())
    ensures var pts := StableSort(samples, RawTime()); Increasing(pts) && pts[0].t < pts[|pts| - 1].t
  {
    SortSorts(samples, RawTime());
    SortDistinct(samples, RawTime());
    DistinctIncreases(StableSort(samples, RawTime()));
    IncreasingSpan(StableSort(samples, RawTime()));
  }

  /** The endpoint rate times the span of the samples. */
  function EndpointIncrease(samples: seq<RawSample>): real
    requires |samples| >= 2
  {
    var pts := StableSort(samples, RawTime());
    EndpointRate(samples).0 * (pts[|pts| - 1].t - pts[0].t)
  }

  lemma EndpointTimesSpan(samples: seq<RawSample>)
    requires |samples| >= 2
    requires var pts := StableSort(samples, RawTime()); pts[0].t < pts[|pts| - 1].t
    ensures var pts := StableSort(samples, RawTime());
      && EndpointRate(samples).1
      && EndpointIncrease(samples) == Max(0.0, pts[|pts| - 1].value - pts[0].value)
  {
    var pts := StableSort(samples, RawTime());
    DivideBack(Max(0.0, pts[|pts| - 1].value - pts[0].value), pts[|pts| - 1].t - pts[0].t);
  }

  lemma NetOfRises(rises: real, drops: real)
    requires rises >= 0.0 && drops >= 0.0
    ensures rises >= Max(0.0, rises - drops)
    ensures rises == Max(0.0, rises - drops) <==> drops == 0.0 || rises == 0.0
  {
  }

  lemma AgreeOn(pts: seq<RawSample>, endpoint: real)
    requires pts != [] && Increasing(pts) && endpoint == Max(0.0, pts[|pts| - 1].value - pts[0].value)
    ensures var weighted := TimeWeighted(pts[0].t, Steps(pts));
      weighted >= endpoint && (weighted == endpoint <==> NeverDrops(pts) || NeverRises(pts))
  {
    hide Steps, TimeWeighted, Rises, Drops, NeverDrops, NeverRises, Increasing;
    WeightedRises(pts);
    RisesAndDrops(pts);
    NetOfRises(Rises(pts), Drops(pts));
  }

  /** The samples of one metric, as the feature builder and the rate stream both select them. */
  function Counter(samples: seq<RawSample>, metric: string): seq<RawSample> { Filter(samples, OfMetric(metric)) }

  /**
    For any samples in which one counter's times are distinct, in any order and among any other metrics, the
    time-weighted sum of its rate stream is at least its endpoint rate times the span, and equal to it exactly when the
    counter, in time order, never drops or never rises.
  */
  lemma RatesAgree(samples: seq<RawSample>, metric: string)
    requires |Counter(samples, metric)| >= 2 && DistinctBy(Counter(samples, metric), RawTime())
    ensures var counter, pts := Counter(samples, metric), Points(samples, metric);
      var weighted := TimeWeighted(pts[0].t, RateStream(samples, metric));
      && EndpointRate(counter).1 && weighted >= EndpointIncrease(counter)
      && (weighted == EndpointIncrease(counter) <==> NeverDrops(pts) || NeverRises(pts))
  {
    var counter, pts := Counter(samples, metric), Points(samples, metric);
    assert pts == StableSort(counter, RawTime()) && RateStream(samples, metric) == Steps(pts);
    hide *;
    SortedCounter(counter);
    EndpointTimesSpan(counter);
    AgreeOn(pts, EndpointIncrease(counter));
  }

  // ----- counter deltas against the rate stream -----

  function ToRaw(metric: string, samples: seq<Reading>): seq<RawSample> {
    seq(|samples|, i requires 0 <= i < |samples| => RawSample(samples[i].time, metric, samples[i].value as real))
  }

  /**
    One delta and one rate describe the same step: equal rates when rate-able, the same increase over a gap, none on a
    reset.
  */
  predicate SameStep(d: Delta, s: Sample) {
    && d.end == s.t
    && match d.quality
       case Ok => d.rate == Some(s.value)
       case Gap => s.value * (d.end - d.start) == d.delta as real
       case Reset => s.value == 0.0
       case Duplicate => false
  }

  predicate SameSteps(ds: seq<Delta>, rates: seq<Sample>) {
    |ds| == |rates| && forall i | 0 <= i < |ds| :: SameStep(ds[i], rates[i])
  }

  ghost predicate InTimeOrder(samples: seq<Reading>) {
    forall i, j | 0 <= i < j < |samples| :: samples[i].time <= samples[j].time
  }

  /** In time order the baseline is simply the previous reading. */
  lemma {:induction false} BaselineIsLast(samples: seq<Reading>, maxGap: real)
    requires samples != [] && InTimeOrder(samples)
    ensures Baseline(samples, maxGap) == samples[|samples| - 1]
  {
    if |samples| > 1 { BaselineIsLast(samples[..|samples| - 1], maxGap); }
  }

  lemma OneStepAgrees(prev: Reading, s: Reading, maxGap: real, metric: string)
    ensures var d := Advance(prev, s, maxGap).0;
      var rates := Streams.Step(RawSample(prev.time, metric, prev.value as real),
        RawSample(s.time, metric, s.value as real));
      if d.quality == Duplicate then rates == [] else |rates| == 1 && SameStep(d, rates[0])
  {
    if prev.time < s.time {
      DivideBack((s.value - prev.value) as real, s.time - prev.time);
    }
  }

  lemma SameStepsAppend(ds: seq<Delta>, rates: seq<Sample>, d: Delta, s: Sample)
    requires SameSteps(ds, rates) && SameStep(d, s)
    ensures SameSteps(ds + [d], rates + [s])
  {
    hide SameStep;
  }

  lemma LastDelta(samples: seq<Reading>, maxGap: real)
    requires |samples| >= 2 && InTimeOrder(samples)
    ensures var n := |samples| - 1; var d := Advance(samples[n - 1], samples[n], maxGap).0;
      Filter(CounterDeltas(samples, maxGap), Forward())
      == Filter(CounterDeltas(samples[..n], maxGap), Forward()) + if d.quality != Duplicate then [d] else []
  {
    var n := |samples| - 1;
    BaselineIsLast(samples[..n], maxGap);
    FilterAppend(CounterDeltas(samples[..n], maxGap), Advance(samples[n - 1], samples[n], maxGap).0, Forward());
  }

  lemma LastStep(samples: seq<Reading>, metric: string)
    requires |samples| >= 2
    ensures var n := |samples| - 1; var pts := ToRaw(metric, samples);
      Steps(pts) == Steps(ToRaw(metric, samples[..n])) + Streams.Step(pts[n - 1], pts[n])
  {
    var n := |samples| - 1;
    assert ToRaw(metric, samples)[..n] == ToRaw(metric, samples[..n]);
  }

  /** On time-ordered input the non-duplicate counter deltas and the rate stream describe the same steps, one by one. */
  lemma {:induction false} DeltasMatchRates(samples: seq<Reading>, maxGap: real, metric: string)
    requires InTimeOrder(samples)
    ensures SameSteps(Filter(CounterDeltas(samples, maxGap), Forward()), Steps(ToRaw(metric, samples)))
  {
    if |samples| >= 2 {
      var n := |samples| - 1;
      DeltasMatchRates(samples[..n], maxGap, metric);
      LastDelta(samples, maxGap);
      LastStep(samples, metric);
      OneStepAgrees(samples[n - 1], samples[n], maxGap, metric);
      var pts := ToRaw(metric, samples);
      var d, rates := Advance(samples[n - 1], samples[n], maxGap).0, Streams.Step(pts[n - 1], pts[n]);
      hide CounterDeltas, Steps, Filter, SameSteps, SameStep, Advance, Streams.Step;
      if d.quality != Duplicate {
        SameStepsAppend(Filter(CounterDeltas(samples[..n], maxGap), Forward()), Steps(ToRaw(metric, samples[..n])), d,
          rates[0]);
        assert rates == [rates[0]];
      }
    }
  }

  lemma OrderedStream(samples: seq<Reading>, metric: string)
    requires InTimeOrder(samples)
    ensures RateStream(ToRaw(metric, samples), metric) == Steps(ToRaw(metric, samples))
  {
    var pts := ToRaw(metric, samples);
    FilterAll(pts, OfMetric(metric));
    SortIdempotent(pts, RawTime());
  }

  ghost predicate SameRates(ds: seq<Delta>, rates: seq<Sample>) {
    |rates| == |ds| && forall i | 0 <= i < |ds| :: ds[i].rate == Some(rates[i].value) && ds[i].end == rates[i].t
  }

  lemma OkStepsAreRates(ds: seq<Delta>, rates: seq<Sample>)
    requires (forall d | d in ds :: d.quality == Ok) && SameSteps(ds, rates)
    ensures SameRates(ds, rates)
  {
    assert forall i | 0 <= i < |ds| :: ds[i] in ds && SameStep(ds[i], rates[i]);
  }

  /**
    On time-ordered input, repeated time stamps included, the rate stream's own sort changes nothing, so without reset
    or gap its rates are those of the deltas that are no duplicates.
  */
  lemma OkRatesAreTheRateStream(samples: seq<Reading>, maxGap: real, metric: string)
    requires InTimeOrder(samples)
    requires forall d | d in CounterDeltas(samples, maxGap) :: d.quality == Ok || d.quality == Duplicate
    ensures SameRates(Filter(CounterDeltas(samples, maxGap), Forward()), RateStream(ToRaw(metric, samples), metric))
  {
    var ds := CounterDeltas(samples, maxGap);
    FilterMembers(ds, Forward());
    assert forall d | d in Filter(ds, Forward()) :: d.quality == Ok;
    hide *;
    OrderedStream(samples, metric);
    DeltasMatchRates(samples, maxGap, metric);
    OkStepsAreRates(Filter(ds, Forward()), Steps(ToRaw(metric, samples)));
  }
}
