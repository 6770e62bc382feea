/** The EWMA detector holds its baseline: crossing samples leave no trace in mean and scale. */
module EwmaTheorems {
  import opened Sequences
  import opened Debouncing
  import opened Detectors

  function EwmaRun(c: EwmaConfig, s: EwmaState, xs: seq<Sample>): EwmaState
    requires c.eps >= 0.0
    decreases |xs|
  {
    if xs == [] then s else EwmaRun(c, EwmaNext(c, s, xs[0]).0, xs[1..])
  }

  /** The samples that do not cross when the whole stream is fed. */
  function Held(c: EwmaConfig, s: EwmaState, xs: seq<Sample>): seq<Sample>
    requires c.eps >= 0.0
    decreases |xs|
  {
    if xs == [] then [] else
    (if EwmaCrosses(c, s, xs[0].value) then [] else [xs[0]]) + Held(c, EwmaNext(c, s, xs[0]).0, xs[1..])
  }

  /** Some sample of the stream crosses. */
  predicate AnyCrossing(c: EwmaConfig, s: EwmaState, xs: seq<Sample>)
    requires c.eps >= 0.0
    decreases |xs|
  {
    xs != [] && (EwmaCrosses(c, s, xs[0].value) || AnyCrossing(c, EwmaNext(c, s, xs[0]).0, xs[1..]))
  }

  predicate SameBaseline(a: EwmaState, b: EwmaState) { a.mean == b.mean && a.mad == b.mad }

  lemma NoCrossingEarlier(c: EwmaConfig, a: EwmaState, b: EwmaState, x: real)
    requires c.eps >= 0.0 && SameBaseline(a, b) && b.n <= a.n && !EwmaCrosses(c, a, x)
    ensures !EwmaCrosses(c, b, x)
  {
  }

  lemma {:induction false} HoldFrom(c: EwmaConfig, a: EwmaState, b: EwmaState, xs: seq<Sample>)
    requires c.eps >= 0.0 && SameBaseline(a, b) && b.n <= a.n && (a.mean.None? ==> b.n == a.n)
    ensures SameBaseline(EwmaRun(c, a, xs), EwmaRun(c, b, Held(c, a, xs))) && !AnyCrossing(c, b, Held(c, a, xs))
    decreases |xs|
  {
    if xs != [] {
      var x := xs[0];
      var a' := EwmaNext(c, a, x).0;
      if EwmaCrosses(c, a, x.value) {
        assert [] + Held(c, a', xs[1..]) == Held(c, a', xs[1..]);
        HoldFrom(c, a', b, xs[1..]);
      } else {
        NoCrossingEarlier(c, a, b, x.value);
        HoldFrom(c, a', EwmaNext(c, b, x).0, xs[1..]);
        assert ([x] + Held(c, a', xs[1..]))[1..] == Held(c, a', xs[1..]);
      }
    }
  }

  /**
    Mean and scale after any stream are those after the stream without its crossing samples, and that shorter stream has
    no crossing at all.
  */
  lemma BaselineHolds(c: EwmaConfig, xs: seq<Sample>)
    requires c.eps >= 0.0
    ensures var held := Held(c, EWMA_INITIAL, xs);
      SameBaseline(EwmaRun(c, EWMA_INITIAL, xs), EwmaRun(c, EWMA_INITIAL, held)) && !AnyCrossing(c, EWMA_INITIAL, held)
  {
    HoldFrom(c, EWMA_INITIAL, EWMA_INITIAL, xs);
  }

  /** From a seeded state every value crosses exactly when the threshold is not positive. */
  lemma BaselineFrozenIff(c: EwmaConfig, s: EwmaState)
    requires c.eps >= 0.0 && s.mean.Some?
    ensures (forall x: real :: EwmaCrosses(c, s, x)) <==> c.zThreshold <= 0.0
  {
    if c.zThreshold > 0.0 {
      assert Z(c, s, s.mean.value) == 0.0;
      assert !EwmaCrosses(c, s, s.mean.value);
    }
  }

  ghost predicate Within(xs: seq<Sample>, lo: real, hi: real) { forall x | x in xs :: lo <= x.value <= hi }

  lemma ProductNonNegative(a: real, b: real)
    requires a >= 0.0 && b >= 0.0
    ensures a * b >= 0.0
  {
  }

  lemma BlendStays(alpha: real, past: real, x: real, lo: real, hi: real)
    requires 0.0 <= alpha <= 1.0 && lo <= past <= hi && lo <= x <= hi
    ensures lo <= Blend(alpha, past, x) <= hi
  {
    var beta := 1.0 - alpha;
    ProductNonNegative(beta, past - lo);
    ProductNonNegative(alpha, x - lo);
    ProductNonNegative(beta, hi - past);
    ProductNonNegative(alpha, hi - x);
    assert Blend(alpha, past, x) - lo == beta * (past - lo) + alpha * (x - lo);
    assert hi - Blend(alpha, past, x) == beta * (hi - past) + alpha * (hi - x);
  }

  lemma {:induction false} HullFrom(c: EwmaConfig, s: EwmaState, xs: seq<Sample>, lo: real, hi: real)
    requires 0.0 <= c.alpha <= 1.0 && c.eps >= 0.0 && Within(Held(c, s, xs), lo, hi)
    requires (s.mean.Some? ==> lo <= s.mean.value <= hi) && 0.0 <= s.mad <= hi - lo
    ensures var r := EwmaRun(c, s, xs); (r.mean.Some? ==> lo <= r.mean.value <= hi) && 0.0 <= r.mad <= hi - lo
    decreases |xs|
  {
    if xs != [] {
      var x := xs[0];
      var s' := EwmaNext(c, s, x).0;
      forall y | y in Held(c, s', xs[1..]) ensures y in Held(c, s, xs) {}
      if !EwmaCrosses(c, s, x.value) {
        assert x in Held(c, s, xs);
        if s.mean.Some? {
          BlendStays(c.alpha, s.mean.value, x.value, lo, hi);
          BlendStays(c.alpha, s.mad, Abs(x.value - s.mean.value), 0.0, hi - lo);
        }
      }
      HullFrom(c, s', xs[1..], lo, hi);
    }
  }

  /** The mean stays in the hull of the non-crossing samples, and the scale between 0 and their range. */
  lemma BaselineInHull(c: EwmaConfig, xs: seq<Sample>, lo: real, hi: real)
    requires 0.0 <= c.alpha <= 1.0 && c.eps >= 0.0 && xs != [] && Within(Held(c, EWMA_INITIAL, xs), lo, hi)
    ensures var r := EwmaRun(c, EWMA_INITIAL, xs); r.mean.Some? && lo <= r.mean.value <= hi && 0.0 <= r.mad <= hi - lo
  {
    assert xs[0] in Held(c, EWMA_INITIAL, xs);
    MeanStays(c, EwmaNext(c, EWMA_INITIAL, xs[0]).0, xs[1..]);
    HullFrom(c, EWMA_INITIAL, xs, lo, hi);
  }

  lemma {:induction false} MeanStays(c: EwmaConfig, s: EwmaState, xs: seq<Sample>)
    requires c.eps >= 0.0 && s.mean.Some?
    ensures EwmaRun(c, s, xs).mean.Some?
    decreases |xs|
  {
    if xs != [] { MeanStays(c, EwmaNext(c, s, xs[0]).0, xs[1..]); }
  }

  // ----- a sustained shift -----

  function Repeat(x: real, times: seq<real>): seq<Sample> {
    if times == [] then [] else [Sample(times[0], x)] + Repeat(x, times[1..])
  }

  /** Sample i is the first, from the persistence-th on, whose time the cooldown allows. */
  ghost predicate FirstAllowed(c: Config, d: DebState, times: seq<real>, i: nat) {
    && i < |times|
    && Allowed(c, d, times, i)
    && forall k | 0 <= k < i :: !Allowed(c, d, times, k)
  }

  predicate Allowed(c: Config, d: DebState, times: seq<real>, i: nat)
    requires i < |times|
  {
    d.run + i + 1 >= c.persistence && (d.lastRaise.None? || times[i] - d.lastRaise.value >= c.cooldown)
  }

  /** Exactly one alarm, on the first allowed sample, or none when no sample is allowed. */
  ghost predicate OneAlarmWhenAllowed(c: Config, d: DebState, times: seq<real>, alarms: seq<Alarm>) {
    if alarms == [] then forall i | 0 <= i < |times| :: !Allowed(c, d, times, i)
    else |alarms| == 1 && exists i: nat :: FirstAllowed(c, d, times, i) && alarms[0].raisedAt == times[i]
  }

  lemma {:induction false} NoMoreRaises(c: EwmaConfig, s: EwmaState, x: real, times: seq<real>)
    requires c.eps >= 0.0 && EwmaCrosses(c, s, x) && !s.deb.armed
    ensures Alarms(EwmaAt(c, s), Repeat(x, times)) == []
    decreases times
  {
    if times != [] {
      var xs := Repeat(x, times);
      assert xs[1..] == Repeat(x, times[1..]);
      NoMoreRaises(c, EwmaNext(c, s, xs[0]).0, x, times[1..]);
    }
  }

  /** Dropping a first sample that does not raise keeps the specification. */
  lemma LaterAlarm(c: Config, d: DebState, d': DebState, times: seq<real>, alarms: seq<Alarm>)
    requires times != [] && !Allowed(c, d, times, 0) && d' == d.(run := d.run + 1)
    requires OneAlarmWhenAllowed(c, d', times[1..], alarms)
    ensures OneAlarmWhenAllowed(c, d, times, alarms)
  {
    forall k | 0 <= k < |times| - 1 ensures Allowed(c, d', times[1..], k) <==> Allowed(c, d, times, k + 1) {}
    if alarms != [] {
      var i: nat :| FirstAllowed(c, d', times[1..], i) && alarms[0].raisedAt == times[1..][i];
      forall k | 0 <= k < i + 1 ensures !Allowed(c, d, times, k) {
        if k > 0 { assert !Allowed(c, d', times[1..], k - 1); }
      }
      assert FirstAllowed(c, d, times, i + 1);
    } else {
      forall i | 0 <= i < |times| ensures !Allowed(c, d, times, i) {
        if i > 0 { assert !Allowed(c, d', times[1..], i - 1); }
      }
    }
  }

  lemma {:induction false} RepeatedValueAlarms(c: EwmaConfig, s: EwmaState, x: real, times: seq<real>)
    requires c.eps >= 0.0 && EwmaCrosses(c, s, x) && s.deb.armed
    ensures OneAlarmWhenAllowed(c.deb, s.deb, times, Alarms(EwmaAt(c, s), Repeat(x, times)))
    decreases times
  {
    if times != [] {
      var xs := Repeat(x, times);
      var (s', raised) := EwmaNext(c, s, xs[0]);
      assert xs[1..] == Repeat(x, times[1..]);
      var alarms := Alarms(EwmaAt(c, s'), Repeat(x, times[1..]));
      if raised {
        NoMoreRaises(c, s', x, times[1..]);
        assert FirstAllowed(c.deb, s.deb, times, 0);
      } else {
        RepeatedValueAlarms(c, s', x, times[1..]);
        LaterAlarm(c.deb, s.deb, s'.deb, times, alarms);
        assert Alarms(EwmaAt(c, s), xs) == [] + alarms == alarms;
      }
    }
  }

  lemma {:induction false} RepeatedValueCrosses(c: EwmaConfig, s: EwmaState, x: real, times: seq<real>)
    requires c.eps >= 0.0 && EwmaCrosses(c, s, x)
    ensures Held(c, s, Repeat(x, times)) == [] && SameBaseline(s, EwmaRun(c, s, Repeat(x, times)))
    decreases times
  {
    if times != [] {
      var xs := Repeat(x, times);
      assert xs[1..] == Repeat(x, times[1..]);
      RepeatedValueCrosses(c, EwmaNext(c, s, xs[0]).0, x, times[1..]);
    }
  }

  /**
    From an armed debouncer, repeating one crossing value crosses forever, and raises exactly once: on the first sample
    that persistence and cooldown allow, the run already under way included.
  */
  lemma SustainedShiftRaisesOnce(c: EwmaConfig, s: EwmaState, x: real, times: seq<real>)
    requires c.eps >= 0.0 && EwmaCrosses(c, s, x) && s.deb.armed
    ensures Held(c, s, Repeat(x, times)) == [] && SameBaseline(s, EwmaRun(c, s, Repeat(x, times)))
    ensures OneAlarmWhenAllowed(c.deb, s.deb, times, Alarms(EwmaAt(c, s), Repeat(x, times)))
  {
    RepeatedValueCrosses(c, s, x, times);
    RepeatedValueAlarms(c, s, x, times);
  }

  /** The sample that completes the persistence, counting the run already under way. */
  function Completing(c: Config, d: DebState): nat {
    if d.run + 1 >= c.persistence then 0 else c.persistence - d.run - 1
  }

  /**
    When the cooldown allows it, that sample is the one that completes the persistence: the persistence-th from a
    cleared run.
  */
  lemma RaisesOnPersistence(c: EwmaConfig, s: EwmaState, x: real, times: seq<real>)
    requires c.eps >= 0.0 && EwmaCrosses(c, s, x) && s.deb.armed
    requires Completing(c.deb, s.deb) < |times|
    requires s.deb.lastRaise.Some? ==> times[Completing(c.deb, s.deb)] - s.deb.lastRaise.value >= c.deb.cooldown
    ensures Alarms(EwmaAt(c, s), Repeat(x, times)) == [Alarm(times[Completing(c.deb, s.deb)], RobustEwma)]
  {
    hide Alarms, Repeat, Held, EwmaRun, EwmaCrosses, SameBaseline;
    var p := Completing(c.deb, s.deb);
    SustainedShiftRaisesOnce(c, s, x, times);
    AlarmSource(EwmaAt(c, s), Repeat(x, times));
    assert Allowed(c.deb, s.deb, times, p);
    var alarms := Alarms(EwmaAt(c, s), Repeat(x, times));
    var i: nat :| FirstAllowed(c.deb, s.deb, times, i) && alarms[0].raisedAt == times[i];
    assert alarms[0] in alarms;
  }

  lemma {:induction false} AlarmSource(d: Detector, xs: seq<Sample>)
    requires d.EwmaAt? && d.Ready()
    ensures forall a | a in Alarms(d, xs) :: a.source == RobustEwma
    decreases |xs|
  {
    if xs != [] { AlarmSource(Next(d, xs[0]).0, xs[1..]); }
  }
}
