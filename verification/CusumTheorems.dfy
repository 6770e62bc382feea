/** The CUSUM recurrence against its closed form, and its symmetries. */
module CusumTheorems {
  import opened Sequences
  import opened Debouncing
  import opened Detectors

  function CusumRun(c: CusumConfig, xs: seq<Sample>): CusumState {
    if xs == [] then CUSUM_INITIAL else CusumNext(c, CusumRun(c, xs[..|xs| - 1]), xs[|xs| - 1]).0
  }

  /** The deviations from the tracked mean since the last detection. */
  function SinceReset(c: CusumConfig, xs: seq<Sample>): seq<real> {
    if xs == [] then [] else
    var x := xs[|xs| - 1].value;
    var s := CusumRun(c, xs[..|xs| - 1]);
    if s.mean.None? || CusumCrosses(c, s, x) then [] else SinceReset(c, xs[..|xs| - 1]) + [x - s.mean.value]
  }

  function Sum(ds: seq<real>): real {
    if ds == [] then 0.0 else Sum(ds[..|ds| - 1]) + ds[|ds| - 1]
  }

  function Shifted(ds: seq<real>, k: real): seq<real> { seq(|ds|, i requires 0 <= i < |ds| => ds[i] + k) }

  /** m is the largest suffix sum of ds; the empty suffix makes it at least 0. */
  ghost predicate IsLargestSuffixSum(ds: seq<real>, m: real) {
    && (exists k | 0 <= k <= |ds| :: Sum(ds[k..]) == m)
    && (forall k | 0 <= k <= |ds| :: Sum(ds[k..]) <= m)
  }

  ghost predicate IsSmallestSuffixSum(ds: seq<real>, m: real) {
    && (exists k | 0 <= k <= |ds| :: Sum(ds[k..]) == m)
    && (forall k | 0 <= k <= |ds| :: Sum(ds[k..]) >= m)
  }

  lemma SuffixSumAppend(ds: seq<real>, d: real, k: nat)
    requires k <= |ds|
    ensures Sum((ds + [d])[k..]) == Sum(ds[k..]) + d
  {
    assert (ds + [d])[k..] == ds[k..] + [d];
    assert (ds[k..] + [d])[..|ds| - k] == ds[k..];
  }

  lemma LargestAppend(ds: seq<real>, d: real, m: real)
    requires IsLargestSuffixSum(ds, m)
    ensures IsLargestSuffixSum(ds + [d], Max(0.0, m + d))
  {
    var longer := ds + [d];
    assert longer[|longer|..] == [];
    forall k | 0 <= k <= |longer| ensures Sum(longer[k..]) <= Max(0.0, m + d) {
      if k <= |ds| { SuffixSumAppend(ds, d, k); }
    }
    if m + d >= 0.0 {
      var k :| 0 <= k <= |ds| && Sum(ds[k..]) == m;
      SuffixSumAppend(ds, d, k);
    } else {
      assert Sum(longer[|longer|..]) == 0.0;
    }
  }

  lemma SmallestAppend(ds: seq<real>, d: real, m: real)
    requires IsSmallestSuffixSum(ds, m)
    ensures IsSmallestSuffixSum(ds + [d], Min(0.0, m + d))
  {
    var longer := ds + [d];
    assert longer[|longer|..] == [];
    forall k | 0 <= k <= |longer| ensures Sum(longer[k..]) >= Min(0.0, m + d) {
      if k <= |ds| { SuffixSumAppend(ds, d, k); }
    }
    if m + d <= 0.0 {
      var k :| 0 <= k <= |ds| && Sum(ds[k..]) == m;
      SuffixSumAppend(ds, d, k);
    } else {
      assert Sum(longer[|longer|..]) == 0.0;
    }
  }

  lemma EmptySuffixSum(ds: seq<real>)
    requires ds == []
    ensures IsLargestSuffixSum(ds, 0.0) && IsSmallestSuffixSum(ds, 0.0)
  {
    assert ds[0..] == [];
  }

  lemma ExtendBoth(ds: seq<real>, d: real, slack: real, sp: real, sn: real)
    requires IsLargestSuffixSum(Shifted(ds, -slack), sp) && IsSmallestSuffixSum(Shifted(ds, slack), sn)
    ensures IsLargestSuffixSum(Shifted(ds + [d], -slack), Max(0.0, sp + (d - slack)))
    ensures IsSmallestSuffixSum(Shifted(ds + [d], slack), Min(0.0, sn + (d + slack)))
  {
    hide Sum, IsLargestSuffixSum, IsSmallestSuffixSum;
    assert Shifted(ds + [d], -slack) == Shifted(ds, -slack) + [d - slack];
    assert Shifted(ds + [d], slack) == Shifted(ds, slack) + [d + slack];
    LargestAppend(Shifted(ds, -slack), d - slack, sp);
    SmallestAppend(Shifted(ds, slack), d + slack, sn);
  }

  /**
    The upper sum is the largest suffix sum of (deviation - slack) since the last reset, and the lower sum is the
    smallest suffix sum of (deviation + slack).
  */
  lemma {:induction false} CusumClosedForm(c: CusumConfig, xs: seq<Sample>)
    ensures var s := CusumRun(c, xs); var ds := SinceReset(c, xs);
      IsLargestSuffixSum(Shifted(ds, -c.slack), s.sp) && IsSmallestSuffixSum(Shifted(ds, c.slack), s.sn)
  {
    hide Sum, IsLargestSuffixSum, IsSmallestSuffixSum;
    var ds := SinceReset(c, xs);
    if xs == [] {
      EmptySuffixSum(Shifted(ds, -c.slack));
      EmptySuffixSum(Shifted(ds, c.slack));
    } else {
      var front := xs[..|xs| - 1];
      var x := xs[|xs| - 1].value;
      var s := CusumRun(c, front);
      CusumClosedForm(c, front);
      if s.mean.None? || CusumCrosses(c, s, x) {
        SeedIsZero(c, front);
        EmptySuffixSum(Shifted(ds, -c.slack));
        EmptySuffixSum(Shifted(ds, c.slack));
      } else {
        ExtendBoth(SinceReset(c, front), x - s.mean.value, c.slack, s.sp, s.sn);
      }
    }
  }

  lemma {:induction false} SeedIsZero(c: CusumConfig, xs: seq<Sample>)
    ensures var s := CusumRun(c, xs); (s.mean.None? <==> xs == []) && s.n == |xs|
    ensures CusumRun(c, xs).mean.None? ==> CusumRun(c, xs).sp == 0.0 && CusumRun(c, xs).sn == 0.0
  {
    if xs != [] { SeedIsZero(c, xs[..|xs| - 1]); }
  }

  /** After warmup neither stored sum exceeds the threshold, exactly when the threshold is not negative. */
  lemma SumsStayBelowThreshold(c: CusumConfig, xs: seq<Sample>)
    requires xs != [] && |xs| > c.warmup
    ensures var s := CusumRun(c, xs); (s.sp <= c.threshold && -s.sn <= c.threshold) <==> c.threshold >= 0.0
  {
    var front := xs[..|xs| - 1];
    SeedIsZero(c, front);
    SeedIsZero(c, xs);
    CusumClosedForm(c, xs);
    var s := CusumRun(c, xs);
    var ds := Shifted(SinceReset(c, xs), -c.slack);
    assert Sum(ds[|ds|..]) == 0.0;
  }

  // ----- symmetries -----

  function Mapped(xs: seq<Sample>, f: real -> real): seq<Sample> {
    seq(|xs|, i requires 0 <= i < |xs| => Sample(xs[i].t, f(xs[i].value)))
  }

  function Negate(): real -> real { (x: real) => -x }
  function ShiftBy(k: real): real -> real { (x: real) => x + k }

  /** a and b are the states of a stream and of its mirror image. */
  predicate Mirrored(a: CusumState, b: CusumState) {
    && (a.mean.None? <==> b.mean.None?)
    && (a.mean.Some? ==> b.mean.value == -a.mean.value)
    && b.sp == -a.sn && b.sn == -a.sp && b.n == a.n && b.deb == a.deb
  }

  predicate Translated(a: CusumState, b: CusumState, k: real) {
    && (a.mean.None? <==> b.mean.None?)
    && (a.mean.Some? ==> b.mean.value == a.mean.value + k)
    && b.sp == a.sp && b.sn == a.sn && b.n == a.n && b.deb == a.deb
  }

  lemma MirrorStep(c: CusumConfig, a: CusumState, b: CusumState, x: Sample)
    requires Mirrored(a, b)
    ensures var y := Sample(x.t, -x.value);
      Mirrored(CusumNext(c, a, x).0, CusumNext(c, b, y).0) && CusumNext(c, a, x).1 == CusumNext(c, b, y).1
  {
    if a.mean.Some? {
      assert Blend(c.refAlpha, -a.mean.value, -x.value) == -Blend(c.refAlpha, a.mean.value, x.value);
      assert CusumCrosses(c, a, x.value) <==> CusumCrosses(c, b, -x.value);
    }
  }

  lemma TranslateStep(c: CusumConfig, a: CusumState, b: CusumState, x: Sample, k: real)
    requires Translated(a, b, k)
    ensures var y := Sample(x.t, x.value + k);
      Translated(CusumNext(c, a, x).0, CusumNext(c, b, y).0, k) && CusumNext(c, a, x).1 == CusumNext(c, b, y).1
  {
    if a.mean.Some? {
      assert Blend(c.refAlpha, a.mean.value + k, x.value + k) == Blend(c.refAlpha, a.mean.value, x.value) + k;
      assert (x.value + k) - (a.mean.value + k) == x.value - a.mean.value;
    }
  }

  lemma {:induction false} NegatedFrom(c: CusumConfig, a: CusumState, b: CusumState, xs: seq<Sample>)
    requires Mirrored(a, b)
    ensures Alarms(CusumAt(c, a), xs) == Alarms(CusumAt(c, b), Mapped(xs, Negate()))
    decreases |xs|
  {
    if xs != [] {
      var ys := Mapped(xs, Negate());
      assert ys[1..] == Mapped(xs[1..], Negate());
      MirrorStep(c, a, b, xs[0]);
      NegatedFrom(c, CusumNext(c, a, xs[0]).0, CusumNext(c, b, ys[0]).0, xs[1..]);
    }
  }

  lemma {:induction false} TranslatedFrom(c: CusumConfig, a: CusumState, b: CusumState, xs: seq<Sample>, k: real)
    requires Translated(a, b, k)
    ensures Alarms(CusumAt(c, a), xs) == Alarms(CusumAt(c, b), Mapped(xs, ShiftBy(k)))
    decreases |xs|
  {
    if xs != [] {
      var ys := Mapped(xs, ShiftBy(k));
      assert ys[1..] == Mapped(xs[1..], ShiftBy(k));
      TranslateStep(c, a, b, xs[0], k);
      TranslatedFrom(c, CusumNext(c, a, xs[0]).0, CusumNext(c, b, ys[0]).0, xs[1..], k);
    }
  }

  /** Negating the stream, or adding a constant to it, leaves the alarms unchanged. */
  lemma CusumIsSymmetric(c: CusumConfig, xs: seq<Sample>, k: real)
    ensures var alarms := Alarms(CusumAt(c, CUSUM_INITIAL), xs);
      && Alarms(CusumAt(c, CUSUM_INITIAL), Mapped(xs, Negate())) == alarms
      && Alarms(CusumAt(c, CUSUM_INITIAL), Mapped(xs, ShiftBy(k))) == alarms
  {
    NegatedFrom(c, CUSUM_INITIAL, CUSUM_INITIAL, xs);
    TranslatedFrom(c, CUSUM_INITIAL, CUSUM_INITIAL, xs, k);
  }
}
