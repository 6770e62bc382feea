/** The detection ensemble over one incident window, and the causal event evaluator. */
module Detection {
  import opened Sequences
  import opened Debouncing
  import opened Detectors
  import opened Streams

  datatype DetectorConfig = DetectorConfig(
    fsmPersistence: int, fsmCooldown: real, ewmaZ: real, ewmaPersistence: int, ewmaWarmup: int,
    cusumK: real, cusumH: real, cusumPersistence: int, horizon: real)
  {
    function Fsm(): Config { Config(fsmPersistence, fsmCooldown) }
    /** alpha, eps and reference alpha keep the detectors' own defaults. */
    function Ewma(): EwmaConfig {
      EwmaConfig(0.3, ewmaZ, ewmaWarmup, 0.000000001, Config(ewmaPersistence, fsmCooldown))
    }
    function Cusum(): CusumConfig { CusumConfig(cusumK, cusumH, 0.05, 5, Config(cusumPersistence, fsmCooldown)) }

    /** Otherwise building the detectors raises ValueError. */
    predicate Valid() { Fsm().Valid() && Ewma().deb.Valid() && Cusum().deb.Valid() }
  }

  const DOWN_BELOW := 0.5

  function RaisedAt(): Alarm -> real { (a: Alarm) => a.raisedAt }
  function RaisedBy(bound: real): Alarm -> bool { (a: Alarm) => a.raisedAt <= bound }

  function FsmAlarms(c: DetectorConfig, samples: seq<RawSample>): seq<Alarm> {
    Alarms(FsmAt(DOWN_BELOW, c.Fsm(), FRESH), OperStateStream(samples))
  }

  function ChannelAlarms(c: DetectorConfig, samples: seq<RawSample>, metric: string): seq<Alarm> {
    Alarms(EwmaAt(c.Ewma(), EWMA_INITIAL), RateStream(samples, metric))
    + Alarms(CusumAt(c.Cusum(), CUSUM_INITIAL), RateStream(samples, metric))
  }

  function CounterAlarms(c: DetectorConfig, samples: seq<RawSample>, metrics: seq<string>): seq<Alarm> {
    if metrics == [] then [] else
    CounterAlarms(c, samples, metrics[..|metrics| - 1]) + ChannelAlarms(c, samples, metrics[|metrics| - 1])
  }

  /** Every detector over every stream, ordered by raise time. */
  function AllAlarms(c: DetectorConfig, samples: seq<RawSample>): seq<Alarm> {
    StableSort(FsmAlarms(c, samples) + CounterAlarms(c, samples, COUNTER_METRICS), RaisedAt())
  }

  lemma {:induction false} AlarmStamps(d: Detector, xs: seq<Sample>)
    requires d.Ready()
    ensures forall a | a in Alarms(d, xs) :: exists x | x in xs :: x.t == a.raisedAt
    decreases |xs|
  {
    if xs != [] {
      AlarmStamps(Next(d, xs[0]).0, xs[1..]);
      assert xs[0] in xs && forall x | x in xs[1..] :: x in xs;
    }
  }

  /** A detector never reads ahead: cutting an ordered stream cuts its alarms at the same bound. */
  lemma {:induction false} AlarmsAreCausal(d: Detector, xs: seq<Sample>, bound: real)
    requires d.Ready() && SortedBy(xs, SampleTime())
    ensures Alarms(d, Filter(xs, UpTo(bound))) == Filter(Alarms(d, xs), RaisedBy(bound))
    decreases |xs|
  {
    if xs != [] {
      var (d', alarm) := Next(d, xs[0]);
      if xs[0].t <= bound {
        AlarmsAreCausal(d', xs[1..], bound);
        if alarm.Some? { FilterCons(alarm.value, Alarms(d', xs[1..]), RaisedBy(bound)); }
        assert [] + Alarms(d', xs[1..]) == Alarms(d', xs[1..]);
        FilterHead(xs, UpTo(bound));
        assert ([xs[0]] + Filter(xs[1..], UpTo(bound)))[1..] == Filter(xs[1..], UpTo(bound));
      } else {
        assert forall x | x in xs :: !UpTo(bound)(x);
        FilterNone(xs, UpTo(bound));
        AlarmStamps(d, xs);
        FilterNone(Alarms(d, xs), RaisedBy(bound));
      }
    }
  }

  lemma {:induction false} CounterAlarmsAreCausal(c: DetectorConfig, samples: seq<RawSample>, metrics: seq<string>,
      bound: real)
    ensures CounterAlarms(c, Filter(samples, RawUpTo(bound)), metrics)
      == Filter(CounterAlarms(c, samples, metrics), RaisedBy(bound))
  {
    if metrics != [] {
      var n := |metrics| - 1;
      var m := metrics[n];
      CounterAlarmsAreCausal(c, samples, metrics[..n], bound);
      StreamsAreCausal(samples, m, bound);
      var ewma, cusum := EwmaAt(c.Ewma(), EWMA_INITIAL), CusumAt(c.Cusum(), CUSUM_INITIAL);
      AlarmsAreCausal(ewma, RateStream(samples, m), bound);
      AlarmsAreCausal(cusum, RateStream(samples, m), bound);
      FilterConcat(Alarms(ewma, RateStream(samples, m)), Alarms(cusum, RateStream(samples, m)), RaisedBy(bound));
      FilterConcat(CounterAlarms(c, samples, metrics[..n]), ChannelAlarms(c, samples, m), RaisedBy(bound));
    }
  }

  /**
   End to end: running the ensemble on the samples up to a bound gives exactly the alarms of the full run raised by the
   bound, in the same order, for any arrival order and any repeated time stamps.
   */
  lemma EnsembleIsCausal(c: DetectorConfig, samples: seq<RawSample>, bound: real)
    ensures AllAlarms(c, Filter(samples, RawUpTo(bound))) == Filter(AllAlarms(c, samples), RaisedBy(bound))
  {
    StreamsAreCausal(samples, "", bound);
    AlarmsAreCausal(FsmAt(DOWN_BELOW, c.Fsm(), FRESH), OperStateStream(samples), bound);
    CounterAlarmsAreCausal(c, samples, COUNTER_METRICS, bound);
    FilterConcat(FsmAlarms(c, samples), CounterAlarms(c, samples, COUNTER_METRICS), RaisedBy(bound));
    SortFilter(FsmAlarms(c, samples) + CounterAlarms(c, samples, COUNTER_METRICS), RaisedAt(), RaisedBy(bound));
  }

  // ----- the evaluator -----

  datatype MatchResult = MatchResult(tDetected: Option<real>, latency: Option<real>, falsePositives: nat) {
    predicate Detected() { tDetected.Some? }
  }

  predicate InHorizon(a: Alarm, onset: real, horizon: real) { onset <= a.raisedAt <= onset + horizon }

  function OutsideHorizon(onset: real, horizon: real): Alarm -> bool { (a: Alarm) => !InHorizon(a, onset, horizon) }

  /** t is the earliest in-horizon raise of the alarms, if there is one. */
  ghost predicate Earliest(alarms: seq<Alarm>, onset: real, horizon: real, t: Option<real>) {
    if t.None? then forall a | a in alarms :: !InHorizon(a, onset, horizon)
    else
      && (exists a | a in alarms :: InHorizon(a, onset, horizon) && a.raisedAt == t.value)
      && (forall a | a in alarms :: InHorizon(a, onset, horizon) ==> t.value <= a.raisedAt)
  }

  /** What a match result must say about alarms and an onset (None for a healthy window). */
  ghost predicate Judges(alarms: seq<Alarm>, onset: Option<real>, horizon: real, r: MatchResult) {
    match onset
    case None => r == MatchResult(None, None, |alarms|)
    case Some(t) =>
      && Earliest(alarms, t, horizon, r.tDetected)
      && r.latency == (if r.tDetected.Some? then Some(r.tDetected.value - t) else None)
      && r.falsePositives == Count(alarms, OutsideHorizon(t, horizon))
  }

  /** Only which alarms there are matters, not their order. */
  lemma JudgesSorted(alarms: seq<Alarm>, onset: real, horizon: real, r: MatchResult)
    requires Judges(StableSort(alarms, RaisedAt()), Some(onset), horizon, r)
    ensures Judges(alarms, Some(onset), horizon, r)
  {
    SortSorts(alarms, RaisedAt());
    SortCount(alarms, RaisedAt(), OutsideHorizon(onset, horizon));
    var ordered := StableSort(alarms, RaisedAt());
    if r.tDetected.Some? {
      var a :| a in ordered && InHorizon(a, onset, horizon) && a.raisedAt == r.tDetected.value;
      assert a in alarms;
    }
    assert forall a | a in alarms :: a in ordered;
  }

  lemma EarliestStep(ordered: seq<Alarm>, i: nat, onset: real, horizon: real, t: Option<real>)
    requires i < |ordered| && SortedBy(ordered, RaisedAt()) && Earliest(ordered[..i], onset, horizon, t)
    ensures Earliest(ordered[..i + 1], onset, horizon,
      if t.None? && InHorizon(ordered[i], onset, horizon) then Some(ordered[i].raisedAt) else t)
  {
    var front, a := ordered[..i], ordered[i];
    assert ordered[..i + 1] == front + [a];
    assert a in front + [a];
    if t.Some? {
      var b :| b in front && InHorizon(b, onset, horizon) && b.raisedAt == t.value;
      assert b in front + [a];
      var k :| 0 <= k < i && ordered[k] == b;
    }
  }

  /** The evaluator's loop over alarms in raise order. */
  method Scan(ordered: seq<Alarm>, lo: real, horizon: real) returns (tDetected: Option<real>, falsePositives: nat)
    requires SortedBy(ordered, RaisedAt())
    ensures Earliest(ordered, lo, horizon, tDetected)
    ensures falsePositives == Count(ordered, OutsideHorizon(lo, horizon))
  {
    var hi := lo + horizon;
    tDetected, falsePositives := None, 0;
    for i := 0 to |ordered|
      invariant Earliest(ordered[..i], lo, horizon, tDetected)
      invariant falsePositives == Count(ordered[..i], OutsideHorizon(lo, horizon))
    {
      var a := ordered[i];
      EarliestStep(ordered, i, lo, horizon, tDetected);
      assert ordered[..i + 1][..i] == ordered[..i];
      if lo <= a.raisedAt <= hi {
        if tDetected.None? {
          tDetected := Some(a.raisedAt);
        }
      } else {
        falsePositives := falsePositives + 1;
      }
    }
    assert ordered[..|ordered|] == ordered;
  }

  /** The earliest in-horizon alarm is the detection; every alarm outside the horizon is a false positive. */
  method Evaluate(alarms: seq<Alarm>, onset: Option<real>, horizon: real) returns (r: Option<MatchResult>)
    ensures r.None? <==> horizon <= 0.0
    ensures r.Some? ==> Judges(alarms, onset, horizon, r.value)
  {
    if horizon <= 0.0 { return None; }
    var ordered := StableSort(alarms, RaisedAt());
    if onset.None? { return Some(MatchResult(None, None, |ordered|)); }
    SortSorts(alarms, RaisedAt());
    var tDetected, falsePositives := Scan(ordered, onset.value, horizon);
    var latency := if tDetected.Some? then Some(tDetected.value - onset.value) else None;
    r := Some(MatchResult(tDetected, latency, falsePositives));
    JudgesSorted(alarms, onset.value, horizon, r.value);
  }

  /** Judges pins down the whole result. */
  lemma JudgesIsUnique(alarms: seq<Alarm>, onset: Option<real>, horizon: real, r: MatchResult, q: MatchResult)
    requires Judges(alarms, onset, horizon, r) && Judges(alarms, onset, horizon, q)
    ensures r == q
  {
    if onset.Some? { EarliestUnique(alarms, onset.value, horizon, r.tDetected, q.tDetected); }
  }

  /**
    A judged incident is detected exactly when some alarm is raised between the onset and the end of the horizon, both
    included, at the earliest such alarm; every other alarm is a false positive.
  */
  lemma VerdictIs(alarms: seq<Alarm>, onset: real, horizon: real, r: MatchResult)
    requires Judges(alarms, Some(onset), horizon, r)
    ensures r.Detected() <==> exists a | a in alarms :: onset <= a.raisedAt && a.raisedAt <= onset + horizon
    ensures r.Detected() ==> r.tDetected.Some? && r.latency == Some(r.tDetected.value - onset)
    ensures r.Detected() ==> exists a | a in alarms ::
      && onset <= a.raisedAt && a.raisedAt <= onset + horizon && a.raisedAt == r.tDetected.value
      && forall b | b in alarms && onset <= b.raisedAt <= onset + horizon :: a.raisedAt <= b.raisedAt
    ensures !r.Detected() ==> r.tDetected == None && r.latency == None
    ensures r.falsePositives
         == |alarms| - Count(alarms, (a: Alarm) => onset <= a.raisedAt && a.raisedAt <= onset + horizon)
  {
    CountOthers(alarms, OutsideHorizon(onset, horizon),
      (a: Alarm) => onset <= a.raisedAt && a.raisedAt <= onset + horizon);
    hide Count;
  }

  lemma {:induction false} CountOthers(s: seq<Alarm>, p: Alarm -> bool, q: Alarm -> bool)
    requires forall a :: p(a) == !q(a)
    ensures Count(s, p) + Count(s, q) == |s|
  {
    if s != [] { CountOthers(s[..|s| - 1], p, q); }
  }

  /** Alarms raised after the horizon carry no detection. */
  lemma LateAlarmsDoNotMatter(alarms: seq<Alarm>, onset: real, horizon: real, bound: real, full: MatchResult,
      cut: MatchResult)
    requires bound >= onset + horizon
    requires Judges(alarms, Some(onset), horizon, full)
    requires Judges(Filter(alarms, RaisedBy(bound)), Some(onset), horizon, cut)
    ensures full.tDetected == cut.tDetected && full.latency == cut.latency && cut.falsePositives <= full.falsePositives
  {
    hide Filter, Count, Earliest;
    EarliestAmongEarly(alarms, onset, horizon, bound, full.tDetected);
    EarliestUnique(Filter(alarms, RaisedBy(bound)), onset, horizon, full.tDetected, cut.tDetected);
    FilterCount(alarms, RaisedBy(bound), OutsideHorizon(onset, horizon));
  }

  lemma EarliestAmongEarly(alarms: seq<Alarm>, onset: real, horizon: real, bound: real, t: Option<real>)
    requires bound >= onset + horizon && Earliest(alarms, onset, horizon, t)
    ensures Earliest(Filter(alarms, RaisedBy(bound)), onset, horizon, t)
  {
    FilterMembers(alarms, RaisedBy(bound));
    hide Filter;
    assert forall a | a in alarms && InHorizon(a, onset, horizon) :: RaisedBy(bound)(a);
  }

  lemma EarliestUnique(alarms: seq<Alarm>, onset: real, horizon: real, t: Option<real>, u: Option<real>)
    requires Earliest(alarms, onset, horizon, t) && Earliest(alarms, onset, horizon, u)
    ensures t == u
  {
  }

  /**
    Dropping every sample after onset + horizon never changes detected, t_detected or latency; it only drops late false
    positives.
  */
  lemma LateSamplesDoNotMatter(c: DetectorConfig, samples: seq<RawSample>, onset: real, bound: real, full: MatchResult,
      cut: MatchResult)
    requires bound >= onset + c.horizon
    requires Judges(AllAlarms(c, samples), Some(onset), c.horizon, full)
    requires Judges(AllAlarms(c, Filter(samples, RawUpTo(bound))), Some(onset), c.horizon, cut)
    ensures full.tDetected == cut.tDetected && full.latency == cut.latency && full.Detected() == cut.Detected()
    ensures cut.falsePositives <= full.falsePositives
  {
    EnsembleIsCausal(c, samples, bound);
    LateAlarmsDoNotMatter(AllAlarms(c, samples), onset, c.horizon, bound, full, cut);
  }

  lemma {:induction false} FilterCount(s: seq<Alarm>, keep: Alarm -> bool, p: Alarm -> bool)
    ensures Count(Filter(s, keep), p) <= Count(s, p)
  {
    if s != [] {
      var n := |s| - 1;
      FilterCount(s[..n], keep, p);
      CountAppend(Filter(s[..n], keep), s[n], p);
      assert Filter(s[..n], keep) + [] == Filter(s[..n], keep);
    }
  }

  // ----- the ensemble as it runs -----

  method RunFsm(c: DetectorConfig, samples: seq<RawSample>) returns (alarms: seq<Alarm>)
    requires c.Valid()
    ensures alarms == FsmAlarms(c, samples)
  {
    var stream := ComputeOperStateStream(samples);
    var fsm := new OperStateDetector(DOWN_BELOW, c.Fsm());
    alarms := RunStream(OfFsm(fsm), stream);
  }

  method RunChannel(c: DetectorConfig, samples: seq<RawSample>, metric: string) returns (alarms: seq<Alarm>)
    requires c.Valid()
    ensures alarms == ChannelAlarms(c, samples, metric)
  {
    var stream := ComputeRateStream(samples, metric);
    var ewma := new RobustEwmaZScore(c.Ewma());
    alarms := RunStream(OfEwma(ewma), stream);
    var cusum := new Cusum(c.Cusum());
    var more := RunStream(OfCusum(cusum), stream);
    alarms := alarms + more;
  }

  method RunCounters(c: DetectorConfig, samples: seq<RawSample>, metrics: seq<string>) returns (alarms: seq<Alarm>)
    requires c.Valid()
    ensures alarms == CounterAlarms(c, samples, metrics)
  {
    alarms := [];
    for i := 0 to |metrics|
      invariant alarms == CounterAlarms(c, samples, metrics[..i])
    {
      assert metrics[..i + 1][..i] == metrics[..i];
      var more := RunChannel(c, samples, metrics[i]);
      alarms := alarms + more;
    }
    assert metrics[..|metrics|] == metrics;
  }

  method ComputeAllAlarms(samples: seq<RawSample>, c: DetectorConfig) returns (r: Option<seq<Alarm>>)
    ensures r.Some? <==> c.Valid()
    ensures r.Some? ==> r.value == AllAlarms(c, samples)
  {
    if !c.Valid() { return None; }
    var alarms := RunFsm(c, samples);
    var more := RunCounters(c, samples, COUNTER_METRICS);
    r := Some(StableSort(alarms + more, RaisedAt()));
  }

  /** One per-incident outcome; None when the configuration is refused. */
  method DetectIncident(samples: seq<RawSample>, c: DetectorConfig, onset: real, isHealthy: bool)
      returns (r: Option<MatchResult>)
    ensures r.Some? <==> c.Valid() && c.horizon > 0.0
    ensures r.Some? ==> Judges(AllAlarms(c, samples), if isHealthy then None else Some(onset), c.horizon, r.value)
  {
    var alarms := ComputeAllAlarms(samples, c);
    if alarms.None? { return None; }
    r := Evaluate(alarms.value, if isHealthy then None else Some(onset), c.horizon);
  }
}
