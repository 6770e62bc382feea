/** What the ensemble consists of: which detector runs on which stream, with which settings. */
module Ensemble {
  import opened Sequences
  import opened Debouncing
  import opened Detectors
  import opened Streams
  import opened Detection
  import opened AlarmHistory

  /** The alarms of two detectors on one counter's rates. */
  function OnRates(ewma: Detector, cusum: Detector, samples: seq<RawSample>, metric: string): multiset<Alarm>
    requires ewma.Ready() && cusum.Ready()
  {
    multiset(Alarms(ewma, RateStream(samples, metric))) + multiset(Alarms(cusum, RateStream(samples, metric)))
  }

  lemma {:induction false} InsertKeeps(x: Alarm, s: seq<Alarm>, key: Alarm -> real)
    ensures multiset(Insert(x, s, key)) == multiset(s) + multiset{x}
  {
    if s != [] && key(x) > key(s[0]) {
      InsertKeeps(x, s[1..], key);
      assert s == [s[0]] + s[1..];
    }
  }

  lemma {:induction false} SortKeeps(s: seq<Alarm>, key: Alarm -> real)
    ensures multiset(StableSort(s, key)) == multiset(s)
  {
    if s != [] {
      SortKeeps(s[1..], key);
      InsertKeeps(s[0], StableSort(s[1..], key), key);
      assert s == [s[0]] + s[1..];
    }
  }

  /** What the metrics contribute together. */
  function Together(ms: seq<string>, each: string -> multiset<Alarm>): multiset<Alarm> {
    if ms == [] then multiset{} else Together(ms[..|ms| - 1], each) + each(ms[|ms| - 1])
  }

  lemma OneMore(ms: seq<string>, m: string, each: string -> multiset<Alarm>)
    ensures Together(ms + [m], each) == Together(ms, each) + each(m)
  {
    assert (ms + [m])[..|ms|] == ms;
  }

  lemma SixTogether(a: string, b: string, c: string, d: string, e: string, f: string, each: string -> multiset<Alarm>)
    ensures Together([a, b, c, d, e, f], each) == each(a) + each(b) + each(c) + each(d) + each(e) + each(f)
  {
    assert Together([], each) == multiset{};
    hide Together;
    assert multiset{} + each(a) == each(a);
    OneMore([], a, each);
    OneMore([a], b, each);
    OneMore([a, b], c, each);
    OneMore([a, b, c], d, each);
    OneMore([a, b, c, d], e, each);
    OneMore([a, b, c, d, e], f, each);
    assert [] + [a] == [a] && [a] + [b] == [a, b] && [a, b] + [c] == [a, b, c] && [a, b, c] + [d] == [a, b, c, d];
    assert [a, b, c, d] + [e] == [a, b, c, d, e] && [a, b, c, d, e] + [f] == [a, b, c, d, e, f];
  }

  function OnRatesOf(c: DetectorConfig, samples: seq<RawSample>): string -> multiset<Alarm> {
    (m: string) => OnRates(EwmaAt(c.Ewma(), EWMA_INITIAL), CusumAt(c.Cusum(), CUSUM_INITIAL), samples, m)
  }

  lemma {:induction false} CountersTogether(c: DetectorConfig, samples: seq<RawSample>, ms: seq<string>)
    ensures multiset(CounterAlarms(c, samples, ms)) == Together(ms, OnRatesOf(c, samples))
  {
    if ms != [] { CountersTogether(c, samples, ms[..|ms| - 1]); }
    hide Alarms, RateStream;
  }

  lemma Regroup<T>(x: multiset<T>, a: multiset<T>, b: multiset<T>, c: multiset<T>, d: multiset<T>, e: multiset<T>,
      f: multiset<T>)
    ensures x + (a + b + c + d + e + f) == x + a + b + c + d + e + f
  {
  }

  lemma Unsorted(c: DetectorConfig, samples: seq<RawSample>)
    ensures multiset(AllAlarms(c, samples))
         == multiset(FsmAlarms(c, samples)) + multiset(CounterAlarms(c, samples, COUNTER_METRICS))
    ensures var all := AllAlarms(c, samples); forall i, j | 0 <= i < j < |all| :: all[i].raisedAt <= all[j].raisedAt
  {
    SortKeeps(FsmAlarms(c, samples) + CounterAlarms(c, samples, COUNTER_METRICS), RaisedAt());
    SortSorts(FsmAlarms(c, samples) + CounterAlarms(c, samples, COUNTER_METRICS), RaisedAt());
    hide FsmAlarms, CounterAlarms, StableSort;
    var all := AllAlarms(c, samples);
    forall i, j | 0 <= i < j < |all| ensures all[i].raisedAt <= all[j].raisedAt {
      assert RaisedAt()(all[i]) <= RaisedAt()(all[j]);
    }
  }

  /**
    The ensemble's alarms, in raise order, are those of the state machine on the oper-state stream, and of one EWMA and
    one CUSUM on the rates of each of the six counters, all with the configured settings and one cooldown.
  */
  lemma AllAlarmsAre(c: DetectorConfig, samples: seq<RawSample>)
    ensures var fresh_ := DebState(0, true, None);
      var fsm := FsmAt(0.5, Config(c.fsmPersistence, c.fsmCooldown), fresh_);
      var ewma := EwmaAt(
        EwmaConfig(0.3, c.ewmaZ, c.ewmaWarmup, 0.000000001, Config(c.ewmaPersistence, c.fsmCooldown)),
        EwmaState(None, 0.0, 0, fresh_));
      var cusum := CusumAt(
        CusumConfig(c.cusumK, c.cusumH, 0.05, 5, Config(c.cusumPersistence, c.fsmCooldown)),
        CusumState(None, 0.0, 0.0, 0, fresh_));
      multiset(AllAlarms(c, samples))
      == multiset(Alarms(fsm, OperStateStream(samples)))
         + OnRates(ewma, cusum, samples, "in_octets") + OnRates(ewma, cusum, samples, "out_octets")
         + OnRates(ewma, cusum, samples, "in_error_packets") + OnRates(ewma, cusum, samples, "out_error_packets")
         + OnRates(ewma, cusum, samples, "in_discarded_packets")
         + OnRates(ewma, cusum, samples, "out_discarded_packets")
    ensures var all := AllAlarms(c, samples); forall i, j | 0 <= i < j < |all| :: all[i].raisedAt <= all[j].raisedAt
  {
    CountersTogether(c, samples, COUNTER_METRICS);
    SixTogether("in_octets", "out_octets", "in_error_packets", "out_error_packets", "in_discarded_packets",
      "out_discarded_packets", OnRatesOf(c, samples));
    Unsorted(c, samples);
    hide OnRates, Together, CounterAlarms, AllAlarms, StableSort, SortedBy, Alarms, OperStateStream;
    var on := OnRatesOf(c, samples);
    Regroup(multiset(FsmAlarms(c, samples)), on("in_octets"), on("out_octets"), on("in_error_packets"),
      on("out_error_packets"), on("in_discarded_packets"), on("out_discarded_packets"));
  }

  /** The configurations that are accepted: every persistence at least one, and a cooldown that is not negative. */
  lemma ConfigIsValidIff(c: DetectorConfig)
    ensures c.Valid() <==>
      c.fsmPersistence >= 1 && c.ewmaPersistence >= 1 && c.cusumPersistence >= 1 && c.fsmCooldown >= 0.0
  {
  }

  // ----- which detector an alarm comes from -----

  function From(source: Source): Alarm -> bool { (a: Alarm) => a.source == source }

  lemma {:induction false} OneSource(d: Detector, xs: seq<Sample>)
    requires d.Ready()
    ensures forall a | a in Alarms(d, xs) :: a.source == SourceOf(d)
    decreases |xs|
  {
    if xs != [] {
      OneSource(Next(d, xs[0]).0, xs[1..]);
      SourceStays(d, xs[0]);
      hide Next;
    }
  }

  lemma {:induction false} CountUniform(s: seq<Alarm>, made: Source, source: Source)
    requires forall a | a in s :: a.source == made
    ensures Count(s, From(source)) == if made == source then |s| else 0
  {
    if s != [] {
      assert s[|s| - 1] in s;
      CountUniform(s[..|s| - 1], made, source);
    }
  }

  lemma SourceStays(d: Detector, x: Sample)
    requires d.Ready()
    ensures var (d', alarm) := Next(d, x);
      SourceOf(d') == SourceOf(d) && (alarm.Some? ==> alarm.value.source == SourceOf(d))
  {
  }

  /** How many alarms one detector raises on a counter's rates. */
  function Raises(d: Detector, samples: seq<RawSample>, metric: string): nat
    requires d.Ready()
  {
    |Alarms(d, RateStream(samples, metric))|
  }

  /** What the metrics contribute together, in numbers. */
  function Total(ms: seq<string>, each: string -> nat): nat {
    if ms == [] then 0 else Total(ms[..|ms| - 1], each) + each(ms[|ms| - 1])
  }

  lemma OneMoreIn(ms: seq<string>, m: string, each: string -> nat)
    ensures Total(ms + [m], each) == Total(ms, each) + each(m)
  {
    assert (ms + [m])[..|ms|] == ms;
  }

  lemma SixTotal(a: string, b: string, c: string, d: string, e: string, f: string, each: string -> nat)
    ensures Total([a, b, c, d, e, f], each) == each(a) + each(b) + each(c) + each(d) + each(e) + each(f)
  {
    assert Total([], each) == 0;
    OneMoreIn([], a, each);
    OneMoreIn([a], b, each);
    OneMoreIn([a, b], c, each);
    OneMoreIn([a, b, c], d, each);
    OneMoreIn([a, b, c, d], e, each);
    OneMoreIn([a, b, c, d, e], f, each);
    hide Total;
    assert [] + [a] == [a] && [a] + [b] == [a, b] && [a, b] + [c] == [a, b, c] && [a, b, c] + [d] == [a, b, c, d];
    assert [a, b, c, d] + [e] == [a, b, c, d, e] && [a, b, c, d, e] + [f] == [a, b, c, d, e, f];
  }

  /** How many of a counter's alarms come from the source. */
  function RaisesOf(c: DetectorConfig, samples: seq<RawSample>, source: Source): string -> nat {
    (m: string) =>
      (if source == RobustEwma then Raises(EwmaAt(c.Ewma(), EWMA_INITIAL), samples, m) else 0)
      + (if source == CusumSums then Raises(CusumAt(c.Cusum(), CUSUM_INITIAL), samples, m) else 0)
  }

  lemma ChannelCounts(c: DetectorConfig, samples: seq<RawSample>, m: string, source: Source)
    ensures Count(ChannelAlarms(c, samples, m), From(source)) == RaisesOf(c, samples, source)(m)
  {
    var rates, ewma, cusum := RateStream(samples, m), EwmaAt(c.Ewma(), EWMA_INITIAL), CusumAt(c.Cusum(), CUSUM_INITIAL);
    OneSource(ewma, rates);
    OneSource(cusum, rates);
    hide Alarms, RateStream;
    CountUniform(Alarms(ewma, rates), RobustEwma, source);
    CountUniform(Alarms(cusum, rates), CusumSums, source);
    CountConcat(Alarms(ewma, rates), Alarms(cusum, rates), From(source));
  }

  lemma {:induction false} CounterCounts(c: DetectorConfig, samples: seq<RawSample>, ms: seq<string>, source: Source)
    ensures Count(CounterAlarms(c, samples, ms), From(source)) == Total(ms, RaisesOf(c, samples, source))
  {
    if ms != [] {
      var n := |ms| - 1;
      hide RaisesOf, ChannelAlarms;
      CounterCounts(c, samples, ms[..n], source);
      ChannelCounts(c, samples, ms[n], source);
      CountConcat(CounterAlarms(c, samples, ms[..n]), ChannelAlarms(c, samples, ms[n]), From(source));
    }
  }

  lemma FsmCounts(c: DetectorConfig, samples: seq<RawSample>, source: Source)
    ensures Count(FsmAlarms(c, samples), From(source)) == if source == OperStateFsm then |FsmAlarms(c, samples)| else 0
  {
    OneSource(FsmAt(DOWN_BELOW, c.Fsm(), FRESH), OperStateStream(samples));
    CountUniform(FsmAlarms(c, samples), OperStateFsm, source);
  }

  /** How many alarms of each detector there are. */
  lemma AlarmsPerSource(c: DetectorConfig, samples: seq<RawSample>, source: Source)
    ensures var per := RaisesOf(c, samples, source);
      Count(AllAlarms(c, samples), From(source))
      == (if source == OperStateFsm
          then |Alarms(FsmAt(0.5, Config(c.fsmPersistence, c.fsmCooldown), FRESH), OperStateStream(samples))| else 0)
         + per("in_octets") + per("out_octets") + per("in_error_packets") + per("out_error_packets")
         + per("in_discarded_packets") + per("out_discarded_packets")
  {
    var fsm, counters := FsmAlarms(c, samples), CounterAlarms(c, samples, COUNTER_METRICS);
    FsmCounts(c, samples, source);
    hide CounterAlarms, RaisesOf, Total, Count, StableSort, Alarms, OperStateStream;
    SortCount(fsm + counters, RaisedAt(), From(source));
    CountConcat(fsm, counters, From(source));
    CounterCounts(c, samples, COUNTER_METRICS, source);
    SixTotal("in_octets", "out_octets", "in_error_packets", "out_error_packets", "in_discarded_packets",
      "out_discarded_packets", RaisesOf(c, samples, source));
  }
}
