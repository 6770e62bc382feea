/** Raw telemetry windows turned into detector streams, and their causality. */
module Streams {
  import opened Sequences
  import opened Detectors

  datatype RawSample = RawSample(t: real, metric: string, value: real)

  const COUNTER_METRICS := [
    "in_octets", "out_octets", "in_error_packets", "out_error_packets", "in_discarded_packets", "out_discarded_packets"]

  function SampleTime(): Sample -> real { (s: Sample) => s.t }
  function RawTime(): RawSample -> real { (s: RawSample) => s.t }
  function OfMetric(metric: string): RawSample -> bool { (s: RawSample) => s.metric == metric }
  function RawUpTo(bound: real): RawSample -> bool { (s: RawSample) => s.t <= bound }
  function UpTo(bound: real): Sample -> bool { (s: Sample) => s.t <= bound }

  // ----- the operational-state stream -----

  /** by_t[t] = min(by_t.get(t, 1.0), v), in a dictionary kept in insertion order. */
  function Lower(byT: seq<Sample>, t: real, v: real): seq<Sample> {
    if byT == [] then [Sample(t, Min(1.0, v))]
    else if byT[0].t == t then [Sample(t, Min(byT[0].value, v))] + byT[1..]
    else [byT[0]] + Lower(byT[1..], t, v)
  }

  /** One entry per time stamp, the lowest state seen there. */
  function Collapse(samples: seq<RawSample>): seq<Sample> {
    if samples == [] then [] else
    var x := samples[|samples| - 1];
    var before := Collapse(samples[..|samples| - 1]);
    if x.metric == "oper_state" then Lower(before, x.t, x.value) else before
  }

  function OperStateStream(samples: seq<RawSample>): seq<Sample> { StableSort(Collapse(samples), SampleTime()) }

  lemma {:induction false} LowerCausal(byT: seq<Sample>, t: real, v: real, bound: real)
    ensures Filter(Lower(byT, t, v), UpTo(bound))
      == if t <= bound then Lower(Filter(byT, UpTo(bound)), t, v) else Filter(byT, UpTo(bound))
  {
    if byT == [] {
      FilterAppend([], Sample(t, Min(1.0, v)), UpTo(bound));
    } else {
      var rest := Filter(byT[1..], UpTo(bound));
      FilterHead(byT, UpTo(bound));
      assert ([byT[0]] + rest)[1..] == rest;
      if byT[0].t == t {
        FilterCons(Sample(t, Min(byT[0].value, v)), byT[1..], UpTo(bound));
      } else {
        LowerCausal(byT[1..], t, v, bound);
        FilterCons(byT[0], Lower(byT[1..], t, v), UpTo(bound));
      }
    }
  }

  lemma {:induction false} CollapseCausal(samples: seq<RawSample>, bound: real)
    ensures Filter(Collapse(samples), UpTo(bound)) == Collapse(Filter(samples, RawUpTo(bound)))
  {
    if samples != [] {
      var front, x := samples[..|samples| - 1], samples[|samples| - 1];
      CollapseCausal(front, bound);
      var kept := Filter(front, RawUpTo(bound));
      assert (kept + [x])[..|kept|] == kept && kept + [] == kept;
      if x.metric == "oper_state" { LowerCausal(Collapse(front), x.t, x.value, bound); }
    }
  }

  /** by_t.get(t) */
  function Entry(byT: seq<Sample>, t: real): Option<real> {
    if byT == [] then None else if byT[0].t == t then Some(byT[0].value) else Entry(byT[1..], t)
  }

  ghost predicate DistinctTimes(byT: seq<Sample>) { forall i, j | 0 <= i < j < |byT| :: byT[i].t != byT[j].t }

  lemma {:induction false} LowerEntry(byT: seq<Sample>, t: real, v: real, u: real)
    ensures Entry(Lower(byT, t, v), u)
         == if u != t then Entry(byT, u) else Some(Min(if Entry(byT, t).Some? then Entry(byT, t).value else 1.0, v))
  {
    if byT != [] && byT[0].t != t {
      LowerEntry(byT[1..], t, v, u);
      assert ([byT[0]] + Lower(byT[1..], t, v))[1..] == Lower(byT[1..], t, v);
    } else if byT != [] {
      assert ([Sample(t, Min(byT[0].value, v))] + byT[1..])[1..] == byT[1..];
    }
  }

  lemma {:induction false} LowerDistinct(byT: seq<Sample>, t: real, v: real)
    requires DistinctTimes(byT)
    ensures DistinctTimes(Lower(byT, t, v))
    ensures forall e | e in Lower(byT, t, v) :: e.t == t || e in byT
  {
    if byT != [] && byT[0].t != t {
      LowerDistinct(byT[1..], t, v);
      var rest := Lower(byT[1..], t, v);
      forall j | 0 <= j < |rest| ensures rest[j].t != byT[0].t {
        assert rest[j] in rest;
      }
    }
  }

  /** v is the lowest of 1.0 and every state sampled at t, and None means that none was. */
  ghost predicate LowestAt(samples: seq<RawSample>, t: real, v: Option<real>) {
    if v.None? then forall s | s in samples :: s.metric != "oper_state" || s.t != t
    else
      && v.value <= 1.0
      && (forall s | s in samples && s.metric == "oper_state" && s.t == t :: v.value <= s.value)
      && (exists s | s in samples :: s.metric == "oper_state" && s.t == t && (v.value == s.value || v.value == 1.0))
  }

  lemma LowestStep(front: seq<RawSample>, x: RawSample, t: real, v: Option<real>)
    requires LowestAt(front, t, v)
    ensures LowestAt(front + [x], t,
      if x.metric == "oper_state" && x.t == t then Some(Min(if v.Some? then v.value else 1.0, x.value)) else v)
  {
    var all := front + [x];
    assert x in all;
    if v.Some? {
      var w :| w in front && w.metric == "oper_state" && w.t == t && (v.value == w.value || v.value == 1.0);
      assert w in all;
    }
  }

  /** "Down wins": exactly one entry per sampled time stamp, carrying the lowest state seen there. */
  lemma {:induction false} CollapseKeepsLowest(samples: seq<RawSample>, t: real)
    ensures DistinctTimes(Collapse(samples)) && LowestAt(samples, t, Entry(Collapse(samples), t))
  {
    if samples != [] {
      var front, x := samples[..|samples| - 1], samples[|samples| - 1];
      CollapseKeepsLowest(front, t);
      assert samples == front + [x];
      LowestStep(front, x, t, Entry(Collapse(front), t));
      if x.metric == "oper_state" {
        LowerEntry(Collapse(front), x.t, x.value, t);
        LowerDistinct(Collapse(front), x.t, x.value);
      }
    }
  }

  lemma {:induction false} EntryIs(byT: seq<Sample>, e: Sample)
    requires DistinctTimes(byT)
    ensures e in byT <==> Entry(byT, e.t) == Some(e.value)
  {
    if byT != [] {
      EntryIs(byT[1..], e);
      assert byT == [byT[0]] + byT[1..];
    }
  }

  /**
    The oper-state stream is in strict time order, has an entry for every time stamp sampled and no other, and carries
    the lowest of the states seen there and 1.0.
  */
  lemma OperStateIs(samples: seq<RawSample>, t: real, v: real)
    ensures var stream := OperStateStream(samples); forall i, j | 0 <= i < j < |stream| :: stream[i].t < stream[j].t
    ensures Sample(t, v) in OperStateStream(samples) <==>
      && (exists s | s in samples :: s.metric == "oper_state" && s.t == t)
      && v <= 1.0 && (forall s | s in samples && s.metric == "oper_state" && s.t == t :: v <= s.value)
      && (v == 1.0 || exists s | s in samples :: s.metric == "oper_state" && s.t == t && s.value == v)
  {
    var byT, stream := Collapse(samples), OperStateStream(samples);
    CollapseKeepsLowest(samples, t);
    EntryIs(byT, Sample(t, v));
    SortSorts(byT, SampleTime());
    StreamDistinct(byT);
    hide Collapse, StableSort, Entry;
    forall i, j | 0 <= i < j < |stream| ensures stream[i].t < stream[j].t {
      assert SampleTime()(stream[i]) <= SampleTime()(stream[j]) && SampleTime()(stream[i]) != SampleTime()(stream[j]);
    }
  }

  lemma StreamDistinct(byT: seq<Sample>)
    requires DistinctTimes(byT)
    ensures DistinctBy(StableSort(byT, SampleTime()), SampleTime())
  {
    SortDistinct(byT, SampleTime());
  }

  // ----- rate streams -----

  /** The rate of one step, or nothing when time does not advance; a drop counts as no increase. */
  function Step(prev: RawSample, cur: RawSample): seq<Sample> {
    if cur.t - prev.t <= 0.0 then []
    else [Sample(cur.t, Max(0.0, cur.value - prev.value) / (cur.t - prev.t))]
  }

  /** The rates of consecutive points. */
  function Steps(pts: seq<RawSample>): seq<Sample> {
    if |pts| < 2 then [] else
    var n := |pts| - 1;
    Steps(pts[..n]) + Step(pts[n - 1], pts[n])
  }

  function Points(samples: seq<RawSample>, metric: string): seq<RawSample> {
    StableSort(Filter(samples, OfMetric(metric)), RawTime())
  }

  function RateStream(samples: seq<RawSample>, metric: string): seq<Sample> { Steps(Points(samples, metric)) }

  /** The points of a metric are its samples in time order. */
  lemma PointsAre(samples: seq<RawSample>, metric: string)
    ensures var pts := Points(samples, metric);
      && (forall i, j | 0 <= i < j < |pts| :: pts[i].t <= pts[j].t)
      && (forall x :: x in pts <==> x in samples && x.metric == metric)
      && |pts| == Count(samples, (s: RawSample) => s.metric == metric)
  {
    var kept, pts := Filter(samples, OfMetric(metric)), Points(samples, metric);
    FilterMembers(samples, OfMetric(metric));
    SortSorts(kept, RawTime());
    FilterLength(samples, OfMetric(metric), (s: RawSample) => s.metric == metric);
    hide Filter, StableSort, Count;
    forall i, j | 0 <= i < j < |pts| ensures pts[i].t <= pts[j].t { assert RawTime()(pts[i]) <= RawTime()(pts[j]); }
    assert forall x: RawSample :: OfMetric(metric)(x) <==> x.metric == metric;
  }

  lemma {:induction false} FilterLength(s: seq<RawSample>, p: RawSample -> bool, q: RawSample -> bool)
    requires forall x :: p(x) == q(x)
    ensures |Filter(s, p)| == Count(s, q)
  {
    if s != [] { FilterLength(s[..|s| - 1], p, q); }
  }

  lemma RateTimesStep(rise: real, dt: real)
    requires dt > 0.0
    ensures rise / dt * dt == rise
  {
  }

  /**
    One more point at a later time adds one rate, stamped with it: the rate times the step is the rise, or 0 when the
    counter drops. One more point at the same time adds none.
  */
  lemma RateStepIs(pts: seq<RawSample>)
    requires |pts| >= 2
    ensures var n := |pts| - 1;
      var rates, before := Steps(pts), Steps(pts[..n]);
      var dt, rise := pts[n].t - pts[n - 1].t, pts[n].value - pts[n - 1].value;
      if dt <= 0.0 then rates == before
      else
        && |rates| == |before| + 1 && rates[..|before|] == before && rates[|before|].t == pts[n].t
        && rates[|before|].value * dt == if rise > 0.0 then rise else 0.0
  {
    var n := |pts| - 1;
    var dt := pts[n].t - pts[n - 1].t;
    if dt > 0.0 { RateTimesStep(Max(0.0, pts[n].value - pts[n - 1].value), dt); }
  }

  lemma {:induction false} StepsStamps(pts: seq<RawSample>)
    requires SortedBy(pts, RawTime())
    ensures SortedBy(Steps(pts), SampleTime())
    ensures forall s | s in Steps(pts) :: pts != [] && pts[0].t <= s.t <= pts[|pts| - 1].t
  {
    if |pts| >= 2 {
      StepsStamps(pts[..|pts| - 1]);
      assert forall s | s in Steps(pts[..|pts| - 1]) :: s.t <= pts[|pts| - 2].t <= pts[|pts| - 1].t;
      var before := Steps(pts[..|pts| - 1]);
      assert forall i | 0 <= i < |before| :: before[i] in before;
    }
  }

  /** A point beyond the bound adds no rate stamped within it. */
  lemma LatePoint(pts: seq<RawSample>, bound: real)
    requires pts != [] && pts[|pts| - 1].t > bound
    ensures var front := pts[..|pts| - 1];
      Filter(Steps(pts), UpTo(bound)) == Filter(Steps(front), UpTo(bound))
        && Filter(pts, RawUpTo(bound)) == Filter(front, RawUpTo(bound))
  {
    var n := |pts| - 1;
    assert pts == pts[..n] + [pts[n]];
    FilterConcat(pts[..n], [pts[n]], RawUpTo(bound));
    if n > 0 {
      FilterConcat(Steps(pts[..n]), Step(pts[n - 1], pts[n]), UpTo(bound));
      FilterNone(Step(pts[n - 1], pts[n]), UpTo(bound));
    }
  }

  lemma {:induction false} StepsCausal(pts: seq<RawSample>, bound: real)
    requires SortedBy(pts, RawTime())
    ensures Filter(Steps(pts), UpTo(bound)) == Steps(Filter(pts, RawUpTo(bound)))
  {
    if pts != [] {
      var n := |pts| - 1;
      if pts[n].t <= bound {
        StepsStamps(pts);
        FilterAll(pts, RawUpTo(bound));
        FilterAll(Steps(pts), UpTo(bound));
      } else {
        LatePoint(pts, bound);
        StepsCausal(pts[..n], bound);
      }
    }
  }

  lemma {:induction false} FilterSwap(s: seq<RawSample>, metric: string, bound: real)
    ensures Filter(Filter(s, OfMetric(metric)), RawUpTo(bound)) == Filter(Filter(s, RawUpTo(bound)), OfMetric(metric))
  {
    if s != [] {
      var n := |s| - 1;
      FilterSwap(s[..n], metric, bound);
      FilterAppend(Filter(s[..n], OfMetric(metric)), s[n], RawUpTo(bound));
      FilterAppend(Filter(s[..n], RawUpTo(bound)), s[n], OfMetric(metric));
      assert Filter(s[..n], OfMetric(metric)) + [] == Filter(s[..n], OfMetric(metric));
      assert Filter(s[..n], RawUpTo(bound)) + [] == Filter(s[..n], RawUpTo(bound));
    }
  }

  /** Cutting the window at a bound cuts the streams at the same bound, whatever the arrival order. */
  lemma StreamsAreCausal(samples: seq<RawSample>, metric: string, bound: real)
    ensures OperStateStream(Filter(samples, RawUpTo(bound))) == Filter(OperStateStream(samples), UpTo(bound))
    ensures RateStream(Filter(samples, RawUpTo(bound)), metric) == Filter(RateStream(samples, metric), UpTo(bound))
    ensures SortedBy(OperStateStream(samples), SampleTime()) && SortedBy(RateStream(samples, metric), SampleTime())
  {
    CollapseCausal(samples, bound);
    SortFilter(Collapse(samples), SampleTime(), UpTo(bound));
    SortSorts(Collapse(samples), SampleTime());
    FilterSwap(samples, metric, bound);
    SortFilter(Filter(samples, OfMetric(metric)), RawTime(), RawUpTo(bound));
    SortSorts(Filter(samples, OfMetric(metric)), RawTime());
    StepsCausal(Points(samples, metric), bound);
    StepsStamps(Points(samples, metric));
  }

  // ----- the adapters as they run -----

  method ComputeOperStateStream(samples: seq<RawSample>) returns (out: seq<Sample>)
    ensures out == OperStateStream(samples)
  {
    var byT: seq<Sample> := [];
    for i := 0 to |samples|
      invariant byT == Collapse(samples[..i])
    {
      assert samples[..i + 1][..i] == samples[..i];
      if samples[i].metric == "oper_state" {
        byT := Lower(byT, samples[i].t, samples[i].value);
      }
    }
    assert samples[..|samples|] == samples;
    out := StableSort(byT, SampleTime());
  }

  method ComputeRateStream(samples: seq<RawSample>, metric: string) returns (out: seq<Sample>)
    ensures out == RateStream(samples, metric)
  {
    var pts := Points(samples, metric);
    out := [];
    if pts == [] { return; }
    for i := 1 to |pts|
      invariant out == Steps(pts[..i])
    {
      assert pts[..i + 1][..i] == pts[..i];
      var prev, cur := pts[i - 1], pts[i];
      var dt := cur.t - prev.t;
      if dt <= 0.0 { continue; }
      var dv := cur.value - prev.value;
      if dv < 0.0 { dv := 0.0; }
      out := out + [Sample(cur.t, dv / dt)];
    }
    assert pts[..|pts|] == pts;
  }
}
