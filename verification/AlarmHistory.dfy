/** The detectors' alarms: the raises over a history of crossings in which every crossing is written out. */
module AlarmHistory {
  import opened Sequences
  import opened Debouncing
  import opened Detectors

  /** The alarms of the raises among the first n samples of a history. */
  function RaisedAlarms(c: Config, h: seq<Obs>, n: nat, source: Source): seq<Alarm>
    requires n <= |h|
  {
    if n == 0 then []
    else RaisedAlarms(c, h, n - 1, source) + if RaisesAt(c, h, n - 1) then [Alarm(h[n - 1].t, source)] else []
  }

  // ----- any detector, sample by sample -----

  function DebOf(d: Detector): DebState {
    match d
    case FsmAt(_, _, deb) => deb
    case EwmaAt(_, s) => s.deb
    case CusumAt(_, s) => s.deb
  }

  function ConfigOf(d: Detector): Config {
    match d
    case FsmAt(_, config, _) => config
    case EwmaAt(c, _) => c.deb
    case CusumAt(c, _) => c.deb
  }

  function SourceOf(d: Detector): Source {
    match d
    case FsmAt(_, _, _) => OperStateFsm
    case EwmaAt(_, _) => RobustEwma
    case CusumAt(_, _) => CusumSums
  }

  predicate Crossing(d: Detector, x: real)
    requires d.Ready()
  {
    match d
    case FsmAt(downBelow, _, _) => x < downBelow
    case EwmaAt(c, s) => EwmaCrosses(c, s, x)
    case CusumAt(c, s) => CusumCrosses(c, s, x)
  }

  /** A detector without a baseline has not observed anything yet. */
  predicate Seeding(d: Detector) {
    match d
    case FsmAt(_, _, _) => true
    case EwmaAt(_, s) => s.mean.None? ==> s.deb.run == 0 && s.deb.armed
    case CusumAt(_, s) => s.mean.None? ==> s.deb.run == 0 && s.deb.armed
  }

  lemma StepObserves(d: Detector, x: Sample)
    requires d.Ready() && Seeding(d)
    ensures var (d', alarm) := Next(d, x);
      var (deb, raised) := Observed(ConfigOf(d), DebOf(d), x.t, Crossing(d, x.value));
      && DebOf(d') == deb && alarm == (if raised then Some(Alarm(x.t, SourceOf(d))) else None)
      && Seeding(d') && ConfigOf(d') == ConfigOf(d) && SourceOf(d') == SourceOf(d)
  {
    hide Z, Blend, UpperSum, LowerSum;
  }

  /** The detector after the first i samples. */
  function After(d: Detector, xs: seq<Sample>, i: nat): (r: Detector)
    requires d.Ready() && i <= |xs|
    ensures r.Ready()
  {
    if i == 0 then d else Next(After(d, xs, i - 1), xs[i - 1]).0
  }

  /** Which samples cross. */
  function History(d: Detector, xs: seq<Sample>): seq<Obs>
    requires d.Ready()
  {
    seq(|xs|, i requires 0 <= i < |xs| => Obs(xs[i].t, Crossing(After(d, xs, i), xs[i].value)))
  }

  lemma {:induction false} AfterObserves(d: Detector, xs: seq<Sample>, i: nat)
    requires d.Ready() && DebOf(d) == FRESH && i <= |xs|
    ensures var s := After(d, xs, i);
      && DebOf(s) == StateAfter(ConfigOf(d), History(d, xs)[..i])
      && Seeding(s) && ConfigOf(s) == ConfigOf(d) && SourceOf(s) == SourceOf(d)
  {
    hide *;
    AfterNone(d, xs);
    if i > 0 {
      AfterObserves(d, xs, i - 1);
      AfterOne(d, xs, i);
      StepObserves(After(d, xs, i - 1), xs[i - 1]);
      StateStep(ConfigOf(d), History(d, xs), i);
    }
  }

  lemma AfterNone(d: Detector, xs: seq<Sample>)
    requires d.Ready() && DebOf(d) == FRESH
    ensures After(d, xs, 0) == d && Seeding(d)
    ensures StateAfter(ConfigOf(d), History(d, xs)[..0]) == DebOf(d)
  {
  }

  lemma AfterOne(d: Detector, xs: seq<Sample>, i: nat)
    requires d.Ready() && 0 < i <= |xs|
    ensures After(d, xs, i - 1).Ready() && After(d, xs, i) == Next(After(d, xs, i - 1), xs[i - 1]).0
    ensures |History(d, xs)| == |xs|
    ensures History(d, xs)[i - 1] == Obs(xs[i - 1].t, Crossing(After(d, xs, i - 1), xs[i - 1].value))
  {
    hide Next, Crossing;
  }

  lemma StateStep(c: Config, h: seq<Obs>, i: nat)
    requires 0 < i <= |h|
    ensures StateAfter(c, h[..i]) == Observed(c, StateAfter(c, h[..i - 1]), h[i - 1].t, h[i - 1].crossing).0
    ensures Raised(c, h, i - 1) <==> Observed(c, StateAfter(c, h[..i - 1]), h[i - 1].t, h[i - 1].crossing).1
  {
    assert h[..i][..i - 1] == h[..i - 1];
  }

  lemma {:induction false} AlarmsFrom(d: Detector, xs: seq<Sample>, i: nat)
    requires d.Ready() && DebOf(d) == FRESH && ConfigOf(d).Valid() && i <= |xs|
    ensures Alarms(d, xs)
         == RaisedAlarms(ConfigOf(d), History(d, xs), i, SourceOf(d)) + Alarms(After(d, xs, i), xs[i..])
  {
    hide *;
    AfterNone(d, xs);
    if i == 0 {
      assert xs[0..] == xs;
      NoneRaised(ConfigOf(d), History(d, xs), SourceOf(d));
    } else {
      AlarmsFrom(d, xs, i - 1);
      AfterOne(d, xs, i);
      AfterObserves(d, xs, i - 1);
      StepObserves(After(d, xs, i - 1), xs[i - 1]);
      StateStep(ConfigOf(d), History(d, xs), i);
      DebouncerRefinesHistory(ConfigOf(d), History(d, xs), i - 1);
      FeedOne(After(d, xs, i - 1), xs, i - 1);
      OneRaised(ConfigOf(d), History(d, xs), i, SourceOf(d));
    }
  }

  lemma NoneRaised(c: Config, h: seq<Obs>, source: Source)
    ensures RaisedAlarms(c, h, 0, source) == []
  {
  }

  lemma OneRaised(c: Config, h: seq<Obs>, n: nat, source: Source)
    requires 0 < n <= |h|
    ensures RaisedAlarms(c, h, n, source)
         == RaisedAlarms(c, h, n - 1, source) + if RaisesAt(c, h, n - 1) then [Alarm(h[n - 1].t, source)] else []
  {
  }

  /** A fresh detector raises exactly where the history specification does over its crossings. */
  lemma AlarmsAreRaises(d: Detector, xs: seq<Sample>)
    requires d.Ready() && DebOf(d) == FRESH && ConfigOf(d).Valid()
    ensures Alarms(d, xs) == RaisedAlarms(ConfigOf(d), History(d, xs), |xs|, SourceOf(d))
  {
    AlarmsFrom(d, xs, |xs|);
  }

  // ----- the oper-state detector -----

  lemma {:induction false} FsmStays(downBelow: real, config: Config, xs: seq<Sample>, i: nat)
    requires i <= |xs|
    ensures var s := After(FsmAt(downBelow, config, FRESH), xs, i); s.FsmAt? && s.downBelow == downBelow
  {
    if i > 0 { FsmStays(downBelow, config, xs, i - 1); }
  }

  /** It crosses exactly on the samples below the bound. */
  lemma FsmAlarmsAre(downBelow: real, config: Config, xs: seq<Sample>)
    requires config.Valid()
    ensures var h := seq(|xs|, i requires 0 <= i < |xs| => Obs(xs[i].t, xs[i].value < downBelow));
      Alarms(FsmAt(downBelow, config, DebState(0, true, None)), xs) == RaisedAlarms(config, h, |xs|, OperStateFsm)
  {
    var d := FsmAt(downBelow, config, FRESH);
    AlarmsAreRaises(d, xs);
    var h := seq(|xs|, i requires 0 <= i < |xs| => Obs(xs[i].t, xs[i].value < downBelow));
    forall i | 0 <= i < |xs| ensures History(d, xs)[i] == h[i] { FsmStays(downBelow, config, xs, i); }
    assert History(d, xs) == h;
  }

  // ----- the EWMA detector -----

  /** The mean that sample i is judged against: crossing samples leave it alone. */
  function Centre(c: EwmaConfig, xs: seq<Sample>, i: nat): real
    requires 1 <= i <= |xs|
    decreases i, 0
  {
    if i == 1 then xs[0].value
    else if Outlier(c, xs, i - 1) then Centre(c, xs, i - 1)
    else (1.0 - c.alpha) * Centre(c, xs, i - 1) + c.alpha * xs[i - 1].value
  }

  function Distance(x: real, y: real): real { if x >= y then x - y else y - x }

  /** The mean absolute deviation that sample i is judged against. */
  function Spread(c: EwmaConfig, xs: seq<Sample>, i: nat): real
    requires 1 <= i <= |xs|
    decreases i, 0
  {
    if i == 1 then 0.0
    else if Outlier(c, xs, i - 1) then Spread(c, xs, i - 1)
    else (1.0 - c.alpha) * Spread(c, xs, i - 1) + c.alpha * Distance(xs[i - 1].value, Centre(c, xs, i - 1))
  }

  /**
    Sample i crosses: after warmup, with a scale above eps, it lies at least zThreshold scales from the mean. A
    threshold that is not positive is crossed by every sample but the first.
  */
  predicate Outlier(c: EwmaConfig, xs: seq<Sample>, i: nat)
    requires i < |xs|
    decreases i, 1
  {
    i >= 1 &&
    (c.zThreshold <= 0.0 ||
     var scale := 1.4826 * Spread(c, xs, i);
     i >= c.warmup && scale > c.eps && Distance(xs[i].value, Centre(c, xs, i)) >= c.zThreshold * scale)
  }

  lemma QuotientBound(d: real, sigma: real, k: real)
    requires sigma > 0.0
    ensures d / sigma >= k <==> d >= k * sigma
    ensures -(d / sigma) >= k <==> -d >= k * sigma
  {
    var q := d / sigma;
    assert q * sigma == d;
    assert (q - k) * sigma == d - k * sigma && (-q - k) * sigma == -d - k * sigma;
  }

  /**
    From a seeded state with a positive threshold, a sample crosses exactly when the warmup is over, the scale is above
    eps, and it lies at least zThreshold scales from the mean.
  */
  lemma CrossesWhen(c: EwmaConfig, s: EwmaState, x: real)
    requires c.eps >= 0.0 && s.mean.Some? && c.zThreshold > 0.0
    ensures var scale := 1.4826 * s.mad;
      EwmaCrosses(c, s, x) <==>
        s.n >= c.warmup && scale > c.eps && Distance(x, s.mean.value) >= c.zThreshold * scale
  {
    var sigma := 1.4826 * s.mad;
    if s.n >= c.warmup && sigma > c.eps {
      QuotientBound(x - s.mean.value, sigma, c.zThreshold);
      assert Z(c, s, x) == (x - s.mean.value) / sigma;
    }
  }

  lemma BlendIs(alpha: real, past: real, x: real)
    ensures Blend(alpha, past, x) == (1.0 - alpha) * past + alpha * x
  {
  }

  lemma EwmaNextIs(c: EwmaConfig, s: EwmaState, x: Sample, m: real, mad: real)
    requires c.eps >= 0.0 && s.mean == Some(m) && s.mad == mad
    ensures var s', crosses := EwmaNext(c, s, x).0, EwmaCrosses(c, s, x.value);
      && s'.n == s.n + 1
      && s'.mean.Some? && s'.mean.value == (if crosses then m else (1.0 - c.alpha) * m + c.alpha * x.value)
      && s'.mad == (if crosses then mad else (1.0 - c.alpha) * mad + c.alpha * Distance(x.value, m))
  {
    hide EwmaCrosses, Observed, Blend;
    BlendIs(c.alpha, m, x.value);
    BlendIs(c.alpha, mad, Distance(x.value, m));
    assert Abs(x.value - m) == Distance(x.value, m);
  }

  lemma CentreStep(c: EwmaConfig, xs: seq<Sample>, i: nat)
    requires 1 <= i < |xs|
    ensures Centre(c, xs, i + 1)
         == if Outlier(c, xs, i) then Centre(c, xs, i) else (1.0 - c.alpha) * Centre(c, xs, i) + c.alpha * xs[i].value
  {
    hide Outlier;
  }

  lemma SpreadStep(c: EwmaConfig, xs: seq<Sample>, i: nat)
    requires 1 <= i < |xs|
    ensures Spread(c, xs, i + 1) == if Outlier(c, xs, i) then Spread(c, xs, i)
      else (1.0 - c.alpha) * Spread(c, xs, i) + c.alpha * Distance(xs[i].value, Centre(c, xs, i))
  {
    hide Outlier, Centre, Distance;
  }

  /** The reference mean and scale follow the detector's, as long as both judge the samples alike. */
  lemma EwmaStep(c: EwmaConfig, xs: seq<Sample>, i: nat, s: EwmaState)
    requires c.eps >= 0.0 && 1 <= i < |xs| && (EwmaCrosses(c, s, xs[i].value) <==> Outlier(c, xs, i))
    requires s.mean == Some(Centre(c, xs, i)) && s.mad == Spread(c, xs, i) && s.n == i
    ensures var s' := EwmaNext(c, s, xs[i]).0;
      s'.mean == Some(Centre(c, xs, i + 1)) && s'.mad == Spread(c, xs, i + 1) && s'.n == i + 1
  {
    hide EwmaCrosses, EwmaNext, Outlier, Centre, Spread, Distance;
    CentreStep(c, xs, i);
    SpreadStep(c, xs, i);
    EwmaNextIs(c, s, xs[i], Centre(c, xs, i), Spread(c, xs, i));
    assert EwmaNext(c, s, xs[i]).0.mean.value == Centre(c, xs, i + 1);
  }

  lemma JudgedAlike(c: EwmaConfig, xs: seq<Sample>, i: nat, s: EwmaState)
    requires c.eps >= 0.0 && 1 <= i < |xs|
    requires s.mean == Some(Centre(c, xs, i)) && s.mad == Spread(c, xs, i) && s.n == i
    ensures EwmaCrosses(c, s, xs[i].value) <==> Outlier(c, xs, i)
  {
    if c.zThreshold > 0.0 { CrossesWhen(c, s, xs[i].value); } else { AlwaysCrosses(c, s, xs[i].value); }
    hide EwmaCrosses, Centre, Spread;
  }

  lemma {:induction false} EwmaAfter(c: EwmaConfig, xs: seq<Sample>, i: nat)
    requires c.eps >= 0.0 && 1 <= i <= |xs|
    ensures var s := After(EwmaAt(c, EWMA_INITIAL), xs, i);
      && s.EwmaAt? && s.ewma == c && s.ewmaState.n == i
      && s.ewmaState.mean == Some(Centre(c, xs, i)) && s.ewmaState.mad == Spread(c, xs, i)
    ensures i < |xs| ==> (Crossing(After(EwmaAt(c, EWMA_INITIAL), xs, i), xs[i].value) <==> Outlier(c, xs, i))
  {
    hide EwmaCrosses, Outlier, EwmaNext;
    var d := EwmaAt(c, EWMA_INITIAL);
    if i == 1 {
      assert After(d, xs, 0) == d;
      EwmaSeeds(c, xs[0]);
    } else {
      EwmaAfter(c, xs, i - 1);
      EwmaStep(c, xs, i - 1, After(d, xs, i - 1).ewmaState);
    }
    if i < |xs| { JudgedAlike(c, xs, i, After(d, xs, i).ewmaState); }
  }

  lemma EwmaSeeds(c: EwmaConfig, x: Sample)
    requires c.eps >= 0.0
    ensures EwmaNext(c, EWMA_INITIAL, x) == (EwmaState(Some(x.value), 0.0, 1, FRESH), false)
  {
  }

  lemma AlwaysCrosses(c: EwmaConfig, s: EwmaState, x: real)
    requires c.eps >= 0.0 && s.mean.Some? && c.zThreshold <= 0.0
    ensures EwmaCrosses(c, s, x)
  {
  }

  lemma EwmaNeverFirst(c: EwmaConfig, xs: seq<Sample>)
    requires c.eps >= 0.0 && xs != []
    ensures !Crossing(After(EwmaAt(c, EWMA_INITIAL), xs, 0), xs[0].value) && !Outlier(c, xs, 0)
  {
  }

  /** The EWMA alarms of a stream are exactly the raises over its outliers. */
  lemma EwmaAlarmsAre(c: EwmaConfig, xs: seq<Sample>)
    requires c.eps >= 0.0 && c.deb.Valid()
    ensures var h := seq(|xs|, i requires 0 <= i < |xs| => Obs(xs[i].t, Outlier(c, xs, i)));
      Alarms(EwmaAt(c, EwmaState(None, 0.0, 0, DebState(0, true, None))), xs)
      == RaisedAlarms(c.deb, h, |xs|, RobustEwma)
  {
    hide Outlier, RaisesAt, RaisedAlarms, Crossing;
    var d := EwmaAt(c, EWMA_INITIAL);
    AlarmsAreRaises(d, xs);
    var h := seq(|xs|, i requires 0 <= i < |xs| => Obs(xs[i].t, Outlier(c, xs, i)));
    forall i | 0 <= i < |xs| ensures History(d, xs)[i] == h[i] {
      if i == 0 { EwmaNeverFirst(c, xs); } else { EwmaAfter(c, xs, i); }
    }
    assert History(d, xs) == h;
  }

  // ----- the CUSUM detector -----

  /** The reference that sample i is compared with. */
  function Tracked(c: CusumConfig, xs: seq<Sample>, i: nat): real
    requires 1 <= i <= |xs|
  {
    if i == 1 then xs[0].value
    else (1.0 - c.refAlpha) * Tracked(c, xs, i - 1) + c.refAlpha * xs[i - 1].value
  }

  /** The summed deviations of samples k up to, but not including, i. */
  function Deviation(c: CusumConfig, xs: seq<Sample>, k: nat, i: nat): real
    requires 1 <= k <= i <= |xs|
  {
    if k == i then 0.0 else Deviation(c, xs, k, i - 1) + (xs[i - 1].value - Tracked(c, xs, i - 1))
  }

  /** The last sample before i that crossed, or 0. */
  function LastDrift(c: CusumConfig, xs: seq<Sample>, i: nat): (r: nat)
    requires 1 <= i <= |xs|
    ensures r < i
    decreases i, 0
  {
    if i == 1 then 0 else if Drifts(c, xs, i - 1) then i - 1 else LastDrift(c, xs, i - 1)
  }

  /** Over samples k up to i the deviation is above or below zero by more than their slack plus the threshold. */
  predicate Departs(c: CusumConfig, xs: seq<Sample>, k: nat, i: nat)
    requires 1 <= k <= i <= |xs|
  {
    var d, slack := Deviation(c, xs, k, i), (i - k) as real * c.slack;
    d - slack > c.threshold || -d - slack > c.threshold
  }

  /** Some run of samples that starts after sample lo and ends before sample i departs. */
  predicate DepartsSince(c: CusumConfig, xs: seq<Sample>, lo: nat, i: nat)
    requires i <= |xs|
  {
    exists k: nat | lo < k <= i :: Departs(c, xs, k, i)
  }

  /** Sample i crosses: after warmup, some run of samples since the last crossing, it included, departs. */
  predicate Drifts(c: CusumConfig, xs: seq<Sample>, i: nat)
    requires i < |xs|
    decreases i, 1
  {
    i >= 1 && i >= c.warmup && DepartsSince(c, xs, LastDrift(c, xs, i), i + 1)
  }

  /** The deviation of samples k up to i, less their slack; and plus it. */
  function Above(c: CusumConfig, xs: seq<Sample>, k: nat, i: nat): real
    requires 1 <= k <= i <= |xs|
  {
    Deviation(c, xs, k, i) - (i - k) as real * c.slack
  }

  function Below(c: CusumConfig, xs: seq<Sample>, k: nat, i: nat): real
    requires 1 <= k <= i <= |xs|
  {
    Deviation(c, xs, k, i) + (i - k) as real * c.slack
  }

  ghost predicate LargestAbove(c: CusumConfig, xs: seq<Sample>, lo: nat, i: nat, sp: real)
    requires i <= |xs|
  {
    && (exists k: nat | lo < k <= i :: Above(c, xs, k, i) == sp)
    && (forall k: nat | lo < k <= i :: Above(c, xs, k, i) <= sp)
  }

  ghost predicate SmallestBelow(c: CusumConfig, xs: seq<Sample>, lo: nat, i: nat, sn: real)
    requires i <= |xs|
  {
    && (exists k: nat | lo < k <= i :: Below(c, xs, k, i) == sn)
    && (forall k: nat | lo < k <= i :: Below(c, xs, k, i) >= sn)
  }

  lemma OneMore(c: CusumConfig, xs: seq<Sample>, k: nat, i: nat)
    requires 1 <= k <= i < |xs|
    ensures Above(c, xs, k, i + 1) == Above(c, xs, k, i) + (xs[i].value - Tracked(c, xs, i)) - c.slack
    ensures Below(c, xs, k, i + 1) == Below(c, xs, k, i) + (xs[i].value - Tracked(c, xs, i)) + c.slack
  {
    assert (i + 1 - k) as real * c.slack == (i - k) as real * c.slack + c.slack;
  }

  lemma NoneYet(c: CusumConfig, xs: seq<Sample>, i: nat)
    requires 1 <= i <= |xs|
    ensures Above(c, xs, i, i) == 0.0 && Below(c, xs, i, i) == 0.0
    ensures LargestAbove(c, xs, i - 1, i, 0.0) && SmallestBelow(c, xs, i - 1, i, 0.0)
  {
    assert Above(c, xs, i, i) == 0.0 && Below(c, xs, i, i) == 0.0;
    hide Above, Below;
  }

  lemma LargestStep(c: CusumConfig, xs: seq<Sample>, lo: nat, i: nat, n: nat, sp: real)
    requires lo < i < |xs| && n == i + 1 && LargestAbove(c, xs, lo, i, sp)
    ensures LargestAbove(c, xs, lo, n, Max(0.0, sp + (xs[i].value - Tracked(c, xs, i)) - c.slack))
  {
    hide Above, Tracked;
    var step := xs[i].value - Tracked(c, xs, i) - c.slack;
    NoneYet(c, xs, n);
    forall k: nat | lo < k <= n ensures Above(c, xs, k, n) <= Max(0.0, sp + step) {
      if k <= i { OneMore(c, xs, k, i); }
    }
    var k: nat :| lo < k <= i && Above(c, xs, k, i) == sp;
    OneMore(c, xs, k, i);
    var best: nat := if sp + step >= 0.0 then k else n;
    assert Above(c, xs, best, n) == Max(0.0, sp + step);
  }

  lemma SmallestStep(c: CusumConfig, xs: seq<Sample>, lo: nat, i: nat, n: nat, sn: real)
    requires lo < i < |xs| && n == i + 1 && SmallestBelow(c, xs, lo, i, sn)
    ensures SmallestBelow(c, xs, lo, n, Min(0.0, sn + (xs[i].value - Tracked(c, xs, i)) + c.slack))
  {
    hide Below, Tracked;
    var step := xs[i].value - Tracked(c, xs, i) + c.slack;
    NoneYet(c, xs, n);
    forall k: nat | lo < k <= n ensures Below(c, xs, k, n) >= Min(0.0, sn + step) {
      if k <= i { OneMore(c, xs, k, i); }
    }
    var k: nat :| lo < k <= i && Below(c, xs, k, i) == sn;
    OneMore(c, xs, k, i);
    var best: nat := if sn + step <= 0.0 then k else n;
    assert Below(c, xs, best, n) == Min(0.0, sn + step);
  }

  /** Some run departs exactly when the largest or the smallest sum is beyond the threshold. */
  lemma SumsExceed(c: CusumConfig, xs: seq<Sample>, lo: nat, i: nat, sp: real, sn: real)
    requires i <= |xs| && LargestAbove(c, xs, lo, i, sp) && SmallestBelow(c, xs, lo, i, sn)
    ensures (sp > c.threshold || -sn > c.threshold) <==> DepartsSince(c, xs, lo, i)
  {
    forall k: nat | lo < k <= i
      ensures Departs(c, xs, k, i) <==> Above(c, xs, k, i) > c.threshold || -Below(c, xs, k, i) > c.threshold
    {
    }
    hide Departs, Above, Below;
    var p: nat :| lo < p <= i && Above(c, xs, p, i) == sp;
    var q: nat :| lo < q <= i && Below(c, xs, q, i) == sn;
  }

  /** The detector's state after i samples, in the terms above. */
  ghost predicate InStep(c: CusumConfig, xs: seq<Sample>, i: nat, s: CusumState)
    requires 1 <= i <= |xs|
  {
    && s.n == i && s.mean == Some(Tracked(c, xs, i))
    && LargestAbove(c, xs, LastDrift(c, xs, i), i, s.sp) && SmallestBelow(c, xs, LastDrift(c, xs, i), i, s.sn)
  }

  lemma DriftsAlike(c: CusumConfig, xs: seq<Sample>, i: nat, s: CusumState)
    requires 1 <= i < |xs| && InStep(c, xs, i, s)
    ensures CusumCrosses(c, s, xs[i].value) <==> Drifts(c, xs, i)
  {
    hide LargestAbove, SmallestBelow, Departs, Tracked, LastDrift;
    var lo, d := LastDrift(c, xs, i), xs[i].value - Tracked(c, xs, i);
    LargestStep(c, xs, lo, i, i + 1, s.sp);
    SmallestStep(c, xs, lo, i, i + 1, s.sn);
    SumsExceed(c, xs, lo, i + 1, Max(0.0, s.sp + d - c.slack), Min(0.0, s.sn + d + c.slack));
  }

  lemma TrackedStep(c: CusumConfig, xs: seq<Sample>, i: nat)
    requires 1 <= i < |xs|
    ensures Tracked(c, xs, i + 1) == (1.0 - c.refAlpha) * Tracked(c, xs, i) + c.refAlpha * xs[i].value
  {
  }

  lemma CusumNextIs(c: CusumConfig, s: CusumState, x: Sample, m: real)
    requires s.mean == Some(m)
    ensures var s', crosses := CusumNext(c, s, x).0, CusumCrosses(c, s, x.value);
      && s'.n == s.n + 1 && s'.mean.Some? && s'.mean.value == (1.0 - c.refAlpha) * m + c.refAlpha * x.value
      && s'.sp == (if crosses then 0.0 else Max(0.0, s.sp + (x.value - m) - c.slack))
      && s'.sn == (if crosses then 0.0 else Min(0.0, s.sn + (x.value - m) + c.slack))
  {
    hide CusumCrosses, Observed, Blend;
    BlendIs(c.refAlpha, m, x.value);
  }

  lemma CusumStep(c: CusumConfig, xs: seq<Sample>, i: nat, s: CusumState)
    requires 1 <= i < |xs| && InStep(c, xs, i, s) && (CusumCrosses(c, s, xs[i].value) <==> Drifts(c, xs, i))
    ensures InStep(c, xs, i + 1, CusumNext(c, s, xs[i]).0)
  {
    hide LargestAbove, SmallestBelow, CusumCrosses, Drifts, Observed;
    TrackedStep(c, xs, i);
    CusumNextIs(c, s, xs[i], Tracked(c, xs, i));
    assert LastDrift(c, xs, i + 1) == if Drifts(c, xs, i) then i else LastDrift(c, xs, i);
    hide CusumNext, Tracked, LastDrift;
    assert CusumNext(c, s, xs[i]).0.mean.value == Tracked(c, xs, i + 1);
    LargestStep(c, xs, LastDrift(c, xs, i), i, i + 1, s.sp);
    SmallestStep(c, xs, LastDrift(c, xs, i), i, i + 1, s.sn);
    NoneYet(c, xs, i + 1);
  }

  lemma CusumSeeds(c: CusumConfig, xs: seq<Sample>)
    requires xs != []
    ensures InStep(c, xs, 1, CusumNext(c, CUSUM_INITIAL, xs[0]).0)
  {
    NoneYet(c, xs, 1);
    hide LargestAbove, SmallestBelow;
  }

  lemma {:induction false} CusumAfter(c: CusumConfig, xs: seq<Sample>, i: nat)
    requires 1 <= i <= |xs|
    ensures var s := After(CusumAt(c, CUSUM_INITIAL), xs, i);
      s.CusumAt? && s.cusum == c && InStep(c, xs, i, s.cusumState)
    ensures i < |xs| ==> (Crossing(After(CusumAt(c, CUSUM_INITIAL), xs, i), xs[i].value) <==> Drifts(c, xs, i))
  {
    hide CusumCrosses, Drifts, CusumNext, InStep;
    var d := CusumAt(c, CUSUM_INITIAL);
    if i == 1 {
      assert After(d, xs, 0) == d;
      CusumSeeds(c, xs);
    } else {
      CusumAfter(c, xs, i - 1);
      CusumStep(c, xs, i - 1, After(d, xs, i - 1).cusumState);
    }
    if i < |xs| { DriftsAlike(c, xs, i, After(d, xs, i).cusumState); }
  }

  lemma CusumNeverFirst(c: CusumConfig, xs: seq<Sample>)
    requires xs != []
    ensures !Crossing(After(CusumAt(c, CUSUM_INITIAL), xs, 0), xs[0].value) && !Drifts(c, xs, 0)
  {
  }

  /** The CUSUM alarms of a stream are exactly the raises over its drifts. */
  lemma CusumAlarmsAre(c: CusumConfig, xs: seq<Sample>)
    requires c.deb.Valid()
    ensures var h := seq(|xs|, i requires 0 <= i < |xs| => Obs(xs[i].t, Drifts(c, xs, i)));
      Alarms(CusumAt(c, CusumState(None, 0.0, 0.0, 0, DebState(0, true, None))), xs)
      == RaisedAlarms(c.deb, h, |xs|, CusumSums)
  {
    hide Drifts, RaisesAt, RaisedAlarms, Crossing;
    var d := CusumAt(c, CUSUM_INITIAL);
    AlarmsAreRaises(d, xs);
    var h := seq(|xs|, i requires 0 <= i < |xs| => Obs(xs[i].t, Drifts(c, xs, i)));
    forall i | 0 <= i < |xs| ensures History(d, xs)[i] == h[i] {
      if i == 0 { CusumNeverFirst(c, xs); } else { CusumAfter(c, xs, i); }
    }
    assert History(d, xs) == h;
  }
}
