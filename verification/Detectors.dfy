/** The causal scalar detectors: operational-state FSM, robust EWMA z-score, and two-sided CUSUM. */
module Detectors {
  import opened Sequences
  import opened Debouncing

  datatype Sample = Sample(t: real, value: real)

  datatype Source = OperStateFsm | RobustEwma | CusumSums

  datatype Alarm = Alarm(raisedAt: real, source: Source)

  const MAD_TO_SIGMA := 1.4826

  function Abs(x: real): real { if x < 0.0 then -x else x }
  function Max(x: real, y: real): real { if x >= y then x else y }
  function Min(x: real, y: real): real { if x <= y then x else y }

  /** The exponentially weighted update of a past estimate. */
  function Blend(alpha: real, past: real, x: real): real { (1.0 - alpha) * past + alpha * x }

  // ----- recurrences -----

  datatype EwmaConfig = EwmaConfig(alpha: real, zThreshold: real, warmup: int, eps: real, deb: Config) {
    predicate Valid() { 0.0 < alpha <= 1.0 && deb.Valid() }
  }

  /** n counts every sample seen, crossing or not; mean is None before the first sample. */
  datatype EwmaState = EwmaState(mean: Option<real>, mad: real, n: int, deb: DebState)

  const EWMA_INITIAL := EwmaState(None, 0.0, 0, FRESH)

  /** The next sample does not divide by a zero scale, which only a negative eps can make it do. */
  predicate Divisible(c: EwmaConfig, s: EwmaState) {
    s.mean.None? || s.n < c.warmup || s.mad != 0.0 || c.eps >= 0.0
  }

  function Z(c: EwmaConfig, s: EwmaState, x: real): real
    requires s.mean.Some? && Divisible(c, s)
  {
    var sigma := MAD_TO_SIGMA * s.mad;
    if s.n >= c.warmup && sigma > c.eps then (x - s.mean.value) / sigma else 0.0
  }

  /** The sample is judged against the past baseline; the first sample is never judged. */
  predicate EwmaCrosses(c: EwmaConfig, s: EwmaState, x: real)
    requires Divisible(c, s)
  {
    s.mean.Some? && Abs(Z(c, s, x)) >= c.zThreshold
  }

  function EwmaNext(c: EwmaConfig, s: EwmaState, x: Sample): (EwmaState, bool)
    requires Divisible(c, s)
  {
    if s.mean.None? then (s.(mean := Some(x.value), n := 1), false)
    else
      var crossing := EwmaCrosses(c, s, x.value);
      var mean := s.mean.value;
      var (deb, raised) := Observed(c.deb, s.deb, x.t, crossing);
      (EwmaState(if crossing then s.mean else Some(Blend(c.alpha, mean, x.value)),
                 if crossing then s.mad else Blend(c.alpha, s.mad, Abs(x.value - mean)),
                 s.n + 1, deb),
       raised)
  }

  datatype CusumConfig = CusumConfig(slack: real, threshold: real, refAlpha: real, warmup: int, deb: Config)

  datatype CusumState = CusumState(mean: Option<real>, sp: real, sn: real, n: int, deb: DebState)

  const CUSUM_INITIAL := CusumState(None, 0.0, 0.0, 0, FRESH)

  function UpperSum(c: CusumConfig, s: CusumState, d: real): real { Max(0.0, s.sp + d - c.slack) }
  function LowerSum(c: CusumConfig, s: CusumState, d: real): real { Min(0.0, s.sn + d + c.slack) }

  predicate CusumCrosses(c: CusumConfig, s: CusumState, x: real) {
    && s.mean.Some?
    && s.n >= c.warmup
    && (UpperSum(c, s, x - s.mean.value) > c.threshold || -LowerSum(c, s, x - s.mean.value) > c.threshold)
  }

  function CusumNext(c: CusumConfig, s: CusumState, x: Sample): (CusumState, bool) {
    if s.mean.None? then (s.(mean := Some(x.value), n := 1), false)
    else
      var crossing := CusumCrosses(c, s, x.value);
      var d := x.value - s.mean.value;
      var (deb, raised) := Observed(c.deb, s.deb, x.t, crossing);
      (CusumState(Some(Blend(c.refAlpha, s.mean.value, x.value)),
                  if crossing then 0.0 else UpperSum(c, s, d),
                  if crossing then 0.0 else LowerSum(c, s, d),
                  s.n + 1, deb),
       raised)
  }

  /** Any of the three detectors, with its state. */
  datatype Detector =
    | FsmAt(downBelow: real, debConfig: Config, deb: DebState)
    | EwmaAt(ewma: EwmaConfig, ewmaState: EwmaState)
    | CusumAt(cusum: CusumConfig, cusumState: CusumState)
  {
    /** No sample ever divides by zero. */
    predicate Ready() { EwmaAt? ==> ewma.eps >= 0.0 }

    /** The next sample does not divide by zero. */
    predicate Defined() { EwmaAt? ==> Divisible(ewma, ewmaState) }
  }

  /** One sample in, at most one alarm out, stamped with the sample's time. */
  function Next(d: Detector, x: Sample): (r: (Detector, Option<Alarm>))
    requires d.Defined()
    ensures d.Ready() ==> r.0.Ready()
    ensures r.1.Some? ==> r.1.value.raisedAt == x.t
  {
    match d
    case FsmAt(downBelow, config, deb) =>
      var (deb', raised) := Observed(config, deb, x.t, x.value < downBelow);
      (d.(deb := deb'), if raised then Some(Alarm(x.t, OperStateFsm)) else None)
    case EwmaAt(config, state) =>
      var (state', raised) := EwmaNext(config, state, x);
      (d.(ewmaState := state'), if raised then Some(Alarm(x.t, RobustEwma)) else None)
    case CusumAt(config, state) =>
      var (state', raised) := CusumNext(config, state, x);
      (d.(cusumState := state'), if raised then Some(Alarm(x.t, CusumSums)) else None)
  }

  /** The alarms of a whole stream. */
  function Alarms(d: Detector, xs: seq<Sample>): seq<Alarm>
    requires d.Ready()
    decreases |xs|
  {
    if xs == [] then [] else
    var (d', alarm) := Next(d, xs[0]);
    (if alarm.Some? then [alarm.value] else []) + Alarms(d', xs[1..])
  }

  /** The detector after a whole stream. */
  function Fed(d: Detector, xs: seq<Sample>): (r: Detector)
    requires d.Ready()
    ensures r.Ready()
    decreases |xs|
  {
    if xs == [] then d else Fed(Next(d, xs[0]).0, xs[1..])
  }

  lemma FeedOne(d: Detector, xs: seq<Sample>, i: nat)
    requires d.Ready() && i < |xs|
    ensures var (d', alarm) := Next(d, xs[i]);
      && Alarms(d, xs[i..]) == (if alarm.Some? then [alarm.value] else []) + Alarms(d', xs[i + 1..])
      && Fed(d, xs[i..]) == Fed(d', xs[i + 1..])
  {
    hide Next;
    assert xs[i..][1..] == xs[i + 1..];
  }

  // ----- the detectors as they run -----

  class OperStateDetector {
    const downBelow: real
    const deb: Debouncer

    constructor (downBelow: real, config: Config)
      requires config.Valid()
      ensures this.downBelow == downBelow && fresh(deb) && deb.config == config && deb.State() == FRESH
    {
      this.downBelow := downBelow;
      deb := new Debouncer(config);
    }

    function State(): Detector
      reads deb
    {
      FsmAt(downBelow, deb.config, deb.State())
    }

    method Update(x: Sample) returns (alarm: Option<Alarm>)
      modifies deb
      ensures (State(), alarm) == Next(old(State()), x)
    {
      var crossing := x.value < downBelow;
      var raised := deb.Observe(x.t, crossing);
      alarm := if raised then Some(Alarm(x.t, OperStateFsm)) else None;
    }
  }

  datatype Reply = Answered(alarm: Option<Alarm>) | DividedByZero

  class RobustEwmaZScore {
    const config: EwmaConfig
    const deb: Debouncer
    var mean: Option<real>
    var mad: real
    var n: int

    constructor (config: EwmaConfig)
      requires config.Valid()
      ensures this.config == config && fresh(deb) && deb.config == config.deb && State() == EwmaAt(config, EWMA_INITIAL)
    {
      this.config := config;
      deb := new Debouncer(config.deb);
      mean, mad, n := None, 0.0, 0;
    }

    /** Building with a bad alpha, persistence or cooldown raises ValueError: no detector. */
    static method Create(config: EwmaConfig) returns (d: RobustEwmaZScore?)
      ensures d != null <==> 0.0 < config.alpha && config.alpha <= 1.0
                             && config.deb.persistence >= 1 && config.deb.cooldown >= 0.0
      ensures d != null ==> fresh(d) && d.config == config && d.State() == EwmaAt(config, EWMA_INITIAL)
    {
      if !(0.0 < config.alpha <= 1.0) { return null; }
      var deb := Debouncer.Create(config.deb);
      if deb == null { return null; }
      d := new RobustEwmaZScore(config);
    }

    function State(): Detector
      reads this, deb
    {
      EwmaAt(config, EwmaState(mean, mad, n, deb.State()))
    }

    /** Fails exactly on a division by a zero scale, and then changes nothing. */
    method Update(x: Sample) returns (reply: Reply)
      requires deb.config == config.deb
      modifies this, deb
      ensures reply.DividedByZero? <==> !old(State()).Defined()
      ensures reply.DividedByZero? ==> State() == old(State())
      ensures reply.Answered? ==> (State(), reply.alarm) == Next(old(State()), x)
    {
      if mean.None? {
        mean := Some(x.value);
        n := 1;
        return Answered(None);
      }
      ghost var before := EwmaState(mean, mad, n, deb.State());
      var dev := Abs(x.value - mean.value);
      var sigma := MAD_TO_SIGMA * mad;
      var z := 0.0;
      if n >= config.warmup && sigma > config.eps {
        if sigma == 0.0 { return DividedByZero; }
        z := (x.value - mean.value) / sigma;
      }
      var crossing := Abs(z) >= config.zThreshold;
      if !crossing {
        mean := Some(Blend(config.alpha, mean.value, x.value));
        mad := Blend(config.alpha, mad, dev);
      }
      n := n + 1;
      var raised := deb.Observe(x.t, crossing);
      assert (EwmaState(mean, mad, n, deb.State()), raised) == EwmaNext(config, before, x);
      reply := Answered(if raised then Some(Alarm(x.t, RobustEwma)) else None);
    }
  }

  class Cusum {
    const config: CusumConfig
    const deb: Debouncer
    var mean: Option<real>
    var sp: real
    var sn: real
    var n: int

    constructor (config: CusumConfig)
      requires config.deb.Valid()
      ensures this.config == config && fresh(deb) && deb.config == config.deb
      ensures State() == CusumAt(config, CUSUM_INITIAL)
    {
      this.config := config;
      deb := new Debouncer(config.deb);
      mean, sp, sn, n := None, 0.0, 0.0, 0;
    }

    function State(): Detector
      reads this, deb
    {
      CusumAt(config, CusumState(mean, sp, sn, n, deb.State()))
    }

    method Update(x: Sample) returns (alarm: Option<Alarm>)
      requires deb.config == config.deb
      modifies this, deb
      ensures (State(), alarm) == Next(old(State()), x)
    {
      if mean.None? {
        mean := Some(x.value);
        n := 1;
        return None;
      }
      ghost var before := CusumState(mean, sp, sn, n, deb.State());
      var d := x.value - mean.value;
      sp := Max(0.0, sp + d - config.slack);
      sn := Min(0.0, sn + d + config.slack);
      var crossing := n >= config.warmup && (sp > config.threshold || -sn > config.threshold);
      mean := Some(Blend(config.refAlpha, mean.value, x.value));
      n := n + 1;
      if crossing {
        sp, sn := 0.0, 0.0;
      }
      var raised := deb.Observe(x.t, crossing);
      assert (CusumState(mean, sp, sn, n, deb.State()), raised) == CusumNext(config, before, x);
      alarm := if raised then Some(Alarm(x.t, CusumSums)) else None;
    }
  }

  /** A detector behind the common streaming interface. */
  datatype Handle = OfFsm(fsm: OperStateDetector) | OfEwma(ewma: RobustEwmaZScore) | OfCusum(cusum: Cusum) {
    function Footprint(): set<object> {
      match this
      case OfFsm(d) => {d.deb}
      case OfEwma(d) => {d, d.deb}
      case OfCusum(d) => {d, d.deb}
    }

    function State(): Detector
      reads Footprint()
    {
      match this
      case OfFsm(d) => d.State()
      case OfEwma(d) => d.State()
      case OfCusum(d) => d.State()
    }

    predicate Wired()
    {
      match this
      case OfFsm(d) => true
      case OfEwma(d) => d.config.eps >= 0.0 && d.deb.config == d.config.deb
      case OfCusum(d) => d.deb.config == d.config.deb
    }

    method Update(x: Sample) returns (alarm: Option<Alarm>)
      requires Wired()
      modifies Footprint()
      ensures (State(), alarm) == Next(old(State()), x)
    {
      match this
      case OfFsm(d) => alarm := d.Update(x);
      case OfEwma(d) =>
        var reply := d.Update(x);
        alarm := reply.alarm;
      case OfCusum(d) => alarm := d.Update(x);
    }
  }

  /**
    Feeding a stream sample by sample collects exactly the alarms of the whole stream and leaves the detector fed with
    it.
  */
  method RunStream(det: Handle, samples: seq<Sample>) returns (out: seq<Alarm>)
    requires det.Wired()
    modifies det.Footprint()
    ensures out == Alarms(old(det.State()), samples)
    ensures det.State() == Fed(old(det.State()), samples)
  {
    hide Next, Alarms, Fed;
    out := [];
    assert samples[0..] == samples;
    for i := 0 to |samples|
      invariant det.State().Ready()
      invariant out + Alarms(det.State(), samples[i..]) == Alarms(old(det.State()), samples)
      invariant Fed(det.State(), samples[i..]) == Fed(old(det.State()), samples)
    {
      FeedOne(det.State(), samples, i);
      var alarm := det.Update(samples[i]);
      if alarm.Some? {
        out := out + [alarm.value];
      }
    }
    FedNothing(det.State(), samples[|samples|..]);
  }

  lemma FedNothing(d: Detector, xs: seq<Sample>)
    requires d.Ready() && xs == []
    ensures Alarms(d, xs) == [] && Fed(d, xs) == d
  {
  }
}
