/** One causal feature example from a telemetry window. */
module Features {
  import opened Sequences
  import opened Detectors
  import opened Streams
  import opened Rates

  datatype Example = Example(utilRatio: real, errorRate: real, discardRate: real, sampleAge: real, missing: nat)

  function InWindow(asOf: real, w: real): RawSample -> bool { (s: RawSample) => asOf - w <= s.t <= asOf }

  function Window(samples: seq<RawSample>, asOf: real, w: real): seq<RawSample> { Filter(samples, InWindow(asOf, w)) }

  function Channel(win: seq<RawSample>, metric: string): seq<RawSample> { Filter(win, OfMetric(metric)) }

  function RateOf(win: seq<RawSample>, metric: string): real { EndpointRate(Channel(win, metric)).0 }

  predicate Rated(win: seq<RawSample>, metric: string) { EndpointRate(Channel(win, metric)).1 }

  /** The latest time in a window. */
  function Latest(win: seq<RawSample>): (t: real)
    requires win != []
    ensures exists s | s in win :: s.t == t
    ensures forall s | s in win :: s.t <= t
  {
    var last := win[|win| - 1];
    if |win| == 1 then last.t
    else
      var before := Latest(win[..|win| - 1]);
      assert forall s :: s in win <==> s in win[..|win| - 1] || s == last;
      Max(before, last.t)
  }

  function Bit(present: bool, value: nat): nat { if present then 0 else value }

  /** Bits 0 to 3: octets, errors, discards, oper-state; a set bit is a channel missing from the window. */
  function MissingMask(win: seq<RawSample>): nat {
    Bit(Rated(win, "in_octets") && Rated(win, "out_octets"), 1)
    + Bit(Rated(win, "in_error_packets") && Rated(win, "out_error_packets"), 2)
    + Bit(Rated(win, "in_discarded_packets") && Rated(win, "out_discarded_packets"), 4)
    + Bit(|Channel(win, "oper_state")| >= 1, 8)
  }

  function Utilisation(inRate: real, outRate: real, capacity: real): real
    requires capacity != 0.0
  {
    Min(1.0, Max(0.0, 8.0 * Max(inRate, outRate) / capacity))
  }

  function UtilRatio(win: seq<RawSample>, capacity: real): real
    requires capacity != 0.0
  {
    Utilisation(RateOf(win, "in_octets"), RateOf(win, "out_octets"), capacity)
  }

  function SampleAge(win: seq<RawSample>, asOf: real, w: real): real { if win == [] then w else asOf - Latest(win) }

  function CausalFeatures(samples: seq<RawSample>, asOf: real, w: real, capacity: real): Option<Example> {
    FromWindow(Window(samples, asOf, w), asOf, w, capacity)
  }

  /** None is the division by a zero capacity. */
  function FromWindow(win: seq<RawSample>, asOf: real, w: real, capacity: real): Option<Example> {
    if capacity == 0.0 then None
    else
      Some(Example(UtilRatio(win, capacity),
                   RateOf(win, "in_error_packets") + RateOf(win, "out_error_packets"),
                   RateOf(win, "in_discarded_packets") + RateOf(win, "out_discarded_packets"),
                   SampleAge(win, asOf, w), MissingMask(win)))
  }

  // ----- the builder as it runs -----

  function Grouped(groups: map<string, seq<RawSample>>, metric: string): seq<RawSample> {
    if metric in groups then groups[metric] else []
  }

  /** One pass keeps the window and groups it by metric. */
  method GroupWindow(samples: seq<RawSample>, asOf: real, w: real)
      returns (win: seq<RawSample>, groups: map<string, seq<RawSample>>)
    ensures win == Window(samples, asOf, w)
    ensures forall m: string :: Grouped(groups, m) == Channel(win, m)
  {
    win, groups := [], map[];
    for i := 0 to |samples|
      invariant win == Window(samples[..i], asOf, w)
      invariant forall m: string :: Grouped(groups, m) == Channel(win, m)
    {
      var s := samples[i];
      assert samples[..i + 1][..i] == samples[..i];
      if asOf - w <= s.t <= asOf {
        forall m: string ensures Channel(win + [s], m) == Channel(win, m) + if s.metric == m then [s] else [] {
          FilterAppend(win, s, OfMetric(m));
        }
        groups := groups[s.metric := Grouped(groups, s.metric) + [s]];
        win := win + [s];
      }
    }
    assert samples[..|samples|] == samples;
  }

  method ComputeFeatures(samples: seq<RawSample>, asOf: real, w: real, capacity: real) returns (r: Option<Example>)
    ensures r == CausalFeatures(samples, asOf, w, capacity)
  {
    var win, groups := GroupWindow(samples, asOf, w);
    var (inO, pInO) := EndpointRate(Grouped(groups, "in_octets"));
    var (outO, pOutO) := EndpointRate(Grouped(groups, "out_octets"));
    var (inE, pInE) := EndpointRate(Grouped(groups, "in_error_packets"));
    var (outE, pOutE) := EndpointRate(Grouped(groups, "out_error_packets"));
    var (inD, pInD) := EndpointRate(Grouped(groups, "in_discarded_packets"));
    var (outD, pOutD) := EndpointRate(Grouped(groups, "out_discarded_packets"));
    var oper := |Grouped(groups, "oper_state")| >= 1;
    hide EndpointRate, Channel, Grouped, Window;
    if capacity == 0.0 { return None; }
    var util := Min(1.0, Max(0.0, 8.0 * Max(inO, outO) / capacity));
    var age := if win != [] then asOf - Latest(win) else w;
    var missing := Bit(pInO && pOutO, 1) + Bit(pInE && pOutE, 2) + Bit(pInD && pOutD, 4) + Bit(oper, 8);
    r := Some(Example(util, inE + outE, inD + outD, age, missing));
  }

  // ----- what the features are -----

  /** A metric's channel holds its samples from the start of the window to its end, both included. */
  lemma ChannelIs(samples: seq<RawSample>, asOf: real, w: real, metric: string, s: RawSample)
    ensures s in Channel(Window(samples, asOf, w), metric)
       <==> s in samples && s.metric == metric && asOf - w <= s.t && s.t <= asOf
  {
    FilterMembers(samples, InWindow(asOf, w));
    FilterMembers(Window(samples, asOf, w), OfMetric(metric));
    hide Filter;
    assert InWindow(asOf, w)(s) <==> asOf - w <= s.t && s.t <= asOf;
    assert OfMetric(metric)(s) <==> s.metric == metric;
  }

  /** The larger of the two octet rates, in bits, as a share of the capacity. */
  ghost predicate Utilises(ratio: real, inRate: real, outRate: real, capacity: real) {
    var bits := 8.0 * (if inRate >= outRate then inRate else outRate);
    if capacity < 0.0 then ratio == 0.0
    else if bits >= capacity then ratio == 1.0
    else ratio * capacity == bits
  }

  lemma ShareOf(bits: real, capacity: real)
    requires bits >= 0.0 && capacity != 0.0
    ensures capacity < 0.0 ==> bits / capacity <= 0.0
    ensures capacity > 0.0 && bits >= capacity ==> bits / capacity >= 1.0
    ensures capacity > 0.0 && bits < capacity ==> 0.0 <= bits / capacity < 1.0
    ensures bits / capacity * capacity == bits
  {
    var q := bits / capacity;
    assert q * capacity == bits;
    assert (q - 1.0) * capacity == bits - capacity;
  }

  /** Every field of the example, from the endpoint rates of the six channels and the latest sample of any metric. */
  lemma FeaturesAre(samples: seq<RawSample>, asOf: real, w: real, capacity: real)
    requires capacity != 0.0
    ensures var f, win := CausalFeatures(samples, asOf, w, capacity), Window(samples, asOf, w);
      && f.Some?
      && Utilises(f.value.utilRatio, EndpointRate(Channel(win, "in_octets")).0,
                  EndpointRate(Channel(win, "out_octets")).0, capacity)
      && f.value.errorRate
         == EndpointRate(Channel(win, "in_error_packets")).0 + EndpointRate(Channel(win, "out_error_packets")).0
      && f.value.discardRate
         == EndpointRate(Channel(win, "in_discarded_packets")).0 + EndpointRate(Channel(win, "out_discarded_packets")).0
      && ((forall s | s in samples :: s.t < asOf - w || asOf < s.t) ==> f.value.sampleAge == w)
      && ((exists s | s in samples :: asOf - w <= s.t <= asOf) ==>
            && (exists s | s in samples :: asOf - w <= s.t <= asOf && f.value.sampleAge == asOf - s.t)
            && forall s | s in samples && asOf - w <= s.t <= asOf :: f.value.sampleAge <= asOf - s.t)
  {
    hide EndpointRate, Channel, Window, SampleAge, UtilRatio, Utilises;
    UtilIs(Window(samples, asOf, w), capacity);
    AgeIs(samples, asOf, w);
  }

  lemma UtilIs(win: seq<RawSample>, capacity: real)
    requires capacity != 0.0
    ensures Utilises(UtilRatio(win, capacity), EndpointRate(Channel(win, "in_octets")).0,
                     EndpointRate(Channel(win, "out_octets")).0, capacity)
  {
    var inRate, outRate := RateOf(win, "in_octets"), RateOf(win, "out_octets");
    RateNonNegative(Channel(win, "in_octets"));
    RateNonNegative(Channel(win, "out_octets"));
    hide EndpointRate, Channel;
    ShareOf(8.0 * (if inRate >= outRate then inRate else outRate), capacity);
    assert Max(inRate, outRate) == if inRate >= outRate then inRate else outRate;
  }

  lemma AgeIs(samples: seq<RawSample>, asOf: real, w: real)
    ensures var age := SampleAge(Window(samples, asOf, w), asOf, w);
      && ((forall s | s in samples :: s.t < asOf - w || asOf < s.t) ==> age == w)
      && ((exists s | s in samples :: asOf - w <= s.t <= asOf) ==>
            && (exists s | s in samples :: asOf - w <= s.t <= asOf && age == asOf - s.t)
            && forall s | s in samples && asOf - w <= s.t <= asOf :: age <= asOf - s.t)
  {
    var win := Window(samples, asOf, w);
    FilterMembers(samples, InWindow(asOf, w));
    hide Filter;
    assert forall s :: s in win <==> s in samples && asOf - w <= s.t <= asOf;
    if win != [] {
      assert win[0] in win;
      var s :| s in win && s.t == Latest(win);
    }
  }

  // ----- what the features depend on -----

  /** A sample outside the window, earlier or later, changes no feature wherever it arrives. */
  lemma OutsideIsInvisible(before: seq<RawSample>, s: RawSample, after: seq<RawSample>, asOf: real, w: real,
      capacity: real)
    requires s.t < asOf - w || asOf < s.t
    ensures CausalFeatures(before + [s] + after, asOf, w, capacity) == CausalFeatures(before + after, asOf, w, capacity)
  {
    var p := InWindow(asOf, w);
    FilterConcat(before + [s], after, p);
    FilterAppend(before, s, p);
    FilterConcat(before, after, p);
    assert Filter(before, p) + [] == Filter(before, p);
    hide Filter, FromWindow;
  }

  lemma QuotientNonNegative(a: real, b: real)
    requires a >= 0.0 && b > 0.0
    ensures a / b >= 0.0
  {
  }

  lemma RateNonNegative(samples: seq<RawSample>)
    ensures EndpointRate(samples).0 >= 0.0 && (EndpointRate(samples).1 <==> |samples| >= 2)
  {
    if |samples| >= 2 {
      var pts := StableSort(samples, RawTime());
      var dt := pts[|pts| - 1].t - pts[0].t;
      if dt > 0.0 { QuotientNonNegative(Max(0.0, pts[|pts| - 1].value - pts[0].value), dt); }
    }
  }

  /**
    Utilisation is a ratio, rates are not negative, and the sample age lies within the window exactly when the window is
    not negative.
  */
  lemma FeaturesInRange(samples: seq<RawSample>, asOf: real, w: real, capacity: real)
    requires capacity != 0.0
    ensures var f := CausalFeatures(samples, asOf, w, capacity).value;
      0.0 <= f.utilRatio <= 1.0 && f.errorRate >= 0.0 && f.discardRate >= 0.0 && (0.0 <= f.sampleAge <= w <==> w >= 0.0)
  {
    var win := Window(samples, asOf, w);
    RateNonNegative(Channel(win, "in_error_packets"));
    RateNonNegative(Channel(win, "out_error_packets"));
    RateNonNegative(Channel(win, "in_discarded_packets"));
    RateNonNegative(Channel(win, "out_discarded_packets"));
    AgeInRange(samples, asOf, w);
    hide EndpointRate, Channel, Window, SampleAge;
  }

  lemma AgeInRange(samples: seq<RawSample>, asOf: real, w: real)
    ensures var age := SampleAge(Window(samples, asOf, w), asOf, w); 0.0 <= age <= w <==> w >= 0.0
  {
    var win := Window(samples, asOf, w);
    FilterMembers(samples, InWindow(asOf, w));
    hide Filter;
    if win != [] {
      assert forall s | s in win :: InWindow(asOf, w)(s);
      var latest := Latest(win);
      var s :| s in win && s.t == latest;
    }
  }

  predicate Missing(win: seq<RawSample>, a: string, b: string) { |Channel(win, a)| < 2 || |Channel(win, b)| < 2 }

  /** Each bit of the mask is set exactly when its channel has too few samples in the window. */
  lemma MaskIsExact(samples: seq<RawSample>, asOf: real, w: real, capacity: real)
    requires capacity != 0.0
    ensures var m, win := CausalFeatures(samples, asOf, w, capacity).value.missing, Window(samples, asOf, w);
      && m < 16
      && (m % 2 == 1 <==> Missing(win, "in_octets", "out_octets"))
      && (m / 2 % 2 == 1 <==> Missing(win, "in_error_packets", "out_error_packets"))
      && (m / 4 % 2 == 1 <==> Missing(win, "in_discarded_packets", "out_discarded_packets"))
      && (m / 8 % 2 == 1 <==> Channel(win, "oper_state") == [])
  {
    var win := Window(samples, asOf, w);
    RateNonNegative(Channel(win, "in_octets"));
    RateNonNegative(Channel(win, "out_octets"));
    RateNonNegative(Channel(win, "in_error_packets"));
    RateNonNegative(Channel(win, "out_error_packets"));
    RateNonNegative(Channel(win, "in_discarded_packets"));
    RateNonNegative(Channel(win, "out_discarded_packets"));
    hide EndpointRate, Channel, Window;
  }
}
