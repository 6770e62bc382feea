/** Raw counter series turned into quality-flagged deltas. */
module Counters {
  import opened Sequences

  datatype Reading = Reading(time: real, value: int)

  datatype Quality = Ok | Reset | Gap | Duplicate

  datatype Delta = Delta(start: real, end: real, delta: int, rate: Option<real>, quality: Quality)

  /** The delta of a reading against the baseline, and the new baseline. */
  function Advance(prev: Reading, s: Reading, maxGap: real): (Delta, Reading) {
    var dt := s.time - prev.time;
    if dt <= 0.0 then (Delta(prev.time, s.time, 0, None, Duplicate), if s.time == prev.time then s else prev)
    else if s.value < prev.value then (Delta(prev.time, s.time, s.value, None, Reset), s)
    else if dt > maxGap then (Delta(prev.time, s.time, s.value - prev.value, None, Gap), s)
    else (Delta(prev.time, s.time, s.value - prev.value, Some((s.value - prev.value) as real / dt), Ok), s)
  }

  /** The baseline after a non-empty series. */
  function Baseline(samples: seq<Reading>, maxGap: real): Reading
    requires samples != []
  {
    var n := |samples| - 1;
    if n == 0 then samples[0] else Advance(Baseline(samples[..n], maxGap), samples[n], maxGap).1
  }

  function CounterDeltas(samples: seq<Reading>, maxGap: real): seq<Delta> {
    if |samples| < 2 then [] else
    var n := |samples| - 1;
    CounterDeltas(samples[..n], maxGap) + [Advance(Baseline(samples[..n], maxGap), samples[n], maxGap).0]
  }

  method ComputeCounterDeltas(samples: seq<Reading>, maxGap: real) returns (out: seq<Delta>)
    ensures out == CounterDeltas(samples, maxGap)
  {
    out := [];
    var prev: Option<Reading> := None;
    for i := 0 to |samples|
      invariant out == CounterDeltas(samples[..i], maxGap)
      invariant prev == if i == 0 then None else Some(Baseline(samples[..i], maxGap))
    {
      var s := samples[i];
      assert samples[..i + 1][..i] == samples[..i];
      if prev.None? {
        prev := Some(s);
        continue;
      }
      var p := prev.value;
      var dt := s.time - p.time;
      if dt <= 0.0 {
        out := out + [Delta(p.time, s.time, 0, None, Duplicate)];
        if s.time == p.time { prev := Some(s); }
        continue;
      }
      if s.value < p.value {
        out := out + [Delta(p.time, s.time, s.value, None, Reset)];
        prev := Some(s);
        continue;
      }
      var delta := s.value - p.value;
      if dt > maxGap {
        out := out + [Delta(p.time, s.time, delta, None, Gap)];
      } else {
        out := out + [Delta(p.time, s.time, delta, Some(delta as real / dt), Ok)];
      }
      prev := Some(s);
    }
    assert samples[..|samples|] == samples;
  }

  /** Sample i is the baseline of the first n: no sample before n is later, and none after i is as late. */
  ghost predicate BaselineAt(samples: seq<Reading>, n: nat, i: nat)
    requires n <= |samples|
  {
    && i < n
    && (forall j | 0 <= j < n :: samples[j].time <= samples[i].time)
    && (forall j | i < j < n :: samples[j].time < samples[i].time)
  }

  lemma BaselineStep(samples: seq<Reading>, maxGap: real, n: nat)
    requires 2 <= n <= |samples|
    ensures var b, s := Baseline(samples[..n - 1], maxGap), samples[n - 1];
      Baseline(samples[..n], maxGap) == if s.time >= b.time then s else b
  {
    assert samples[..n][..n - 1] == samples[..n - 1];
  }

  lemma BaselineMoves(samples: seq<Reading>, n: nat, i: nat)
    requires 2 <= n <= |samples| && BaselineAt(samples, n - 1, i)
    ensures BaselineAt(samples, n, if samples[n - 1].time >= samples[i].time then n - 1 else i)
  {
  }

  lemma {:induction false} BaselineIs(samples: seq<Reading>, maxGap: real, n: nat)
    requires 1 <= n <= |samples|
    ensures exists i: nat | i < n :: BaselineAt(samples, n, i) && Baseline(samples[..n], maxGap) == samples[i]
  {
    if n == 1 {
      assert BaselineAt(samples, 1, 0);
    } else {
      hide Baseline, BaselineAt;
      BaselineIs(samples, maxGap, n - 1);
      BaselineStep(samples, maxGap, n);
      var i: nat :| i < n - 1 && BaselineAt(samples, n - 1, i) && Baseline(samples[..n - 1], maxGap) == samples[i];
      BaselineMoves(samples, n, i);
    }
  }

  /** What a delta says of a reading and the baseline it is compared with. */
  ghost predicate Compares(d: Delta, b: Reading, s: Reading, maxGap: real) {
    var dt := s.time - b.time;
    && d.start == b.time && d.end == s.time
    && (d.quality == Duplicate <==> dt <= 0.0)
    && (d.quality == Reset <==> dt > 0.0 && s.value < b.value)
    && (d.quality == Gap <==> dt > 0.0 && s.value >= b.value && dt > maxGap)
    && (d.quality == Ok <==> dt > 0.0 && s.value >= b.value && dt <= maxGap)
    && d.delta == (if d.quality == Duplicate then 0 else if d.quality == Reset then s.value else s.value - b.value)
    && (d.rate.Some? <==> d.quality == Ok)
    && (d.rate.Some? ==> d.rate.value * dt == d.delta as real)
  }

  lemma RateTimesGap(delta: int, dt: real)
    requires dt > 0.0
    ensures delta as real / dt * dt == delta as real
  {
  }

  lemma AdvanceIs(b: Reading, s: Reading, maxGap: real)
    ensures Compares(Advance(b, s, maxGap).0, b, s, maxGap)
  {
    if s.time > b.time { RateTimesGap(s.value - b.value, s.time - b.time); }
  }

  lemma {:induction false} DeltaAt(samples: seq<Reading>, maxGap: real, k: nat)
    requires k + 1 < |samples|
    ensures |CounterDeltas(samples, maxGap)| == |samples| - 1
    ensures CounterDeltas(samples, maxGap)[k] == Advance(Baseline(samples[..k + 1], maxGap), samples[k + 1], maxGap).0
  {
    var n := |samples| - 1;
    LastReading(samples, maxGap);
    DeltasLength(samples[..n], maxGap);
    hide CounterDeltas, Baseline, Advance;
    if k + 1 < n {
      DeltaAt(samples[..n], maxGap, k);
      assert samples[..n][..k + 1] == samples[..k + 1];
    }
  }

  /**
    Delta k compares reading k + 1 with the latest reading before it, the last one to arrive among those: its span,
    quality, amount and rate.
  */
  lemma DeltasAre(samples: seq<Reading>, maxGap: real, k: nat)
    requires k + 1 < |samples|
    ensures |CounterDeltas(samples, maxGap)| == |samples| - 1
    ensures exists i: nat | i <= k ::
      BaselineAt(samples, k + 1, i) && Compares(CounterDeltas(samples, maxGap)[k], samples[i], samples[k + 1], maxGap)
  {
    hide CounterDeltas, Baseline, Advance, Compares, BaselineAt;
    DeltaAt(samples, maxGap, k);
    BaselineIs(samples, maxGap, k + 1);
    var i: nat :| i <= k && BaselineAt(samples, k + 1, i) && Baseline(samples[..k + 1], maxGap) == samples[i];
    AdvanceIs(samples[i], samples[k + 1], maxGap);
  }

  lemma {:induction false} DeltasLength(samples: seq<Reading>, maxGap: real)
    ensures |CounterDeltas(samples, maxGap)| == if samples == [] then 0 else |samples| - 1
  {
    if |samples| >= 2 { DeltasLength(samples[..|samples| - 1], maxGap); }
  }

  lemma LastReading(samples: seq<Reading>, maxGap: real)
    requires |samples| >= 2
    ensures var n := |samples| - 1; var step := Advance(Baseline(samples[..n], maxGap), samples[n], maxGap);
      CounterDeltas(samples, maxGap) == CounterDeltas(samples[..n], maxGap) + [step.0]
        && Baseline(samples, maxGap) == step.1
  {
  }

  // ----- tiling -----

  function Forward(): Delta -> bool { (d: Delta) => d.quality != Duplicate }

  /** Consecutive, non-empty, non-overlapping intervals from lo to hi. */
  predicate Tiles(ds: seq<Delta>, lo: real, hi: real) {
    if ds == [] then lo == hi
    else ds[|ds| - 1].end == hi && ds[|ds| - 1].start < hi && Tiles(ds[..|ds| - 1], lo, ds[|ds| - 1].start)
  }

  /** The baseline is one of the readings, and none is later. */
  lemma {:induction false} BaselineIsLatest(samples: seq<Reading>, maxGap: real)
    requires samples != []
    ensures Baseline(samples, maxGap) in samples && forall s | s in samples :: s.time <= Baseline(samples, maxGap).time
  {
    var n := |samples| - 1;
    if n > 0 {
      BaselineIsLatest(samples[..n], maxGap);
      LastReading(samples, maxGap);
      hide CounterDeltas, Baseline;
      assert forall s :: s in samples <==> s in samples[..n] || s == samples[n];
    }
  }

  lemma AdvanceTiles(kept: seq<Delta>, lo: real, prev: Reading, s: Reading, maxGap: real)
    requires Tiles(kept, lo, prev.time)
    ensures var (d, next) := Advance(prev, s, maxGap);
      Tiles(kept + if d.quality != Duplicate then [d] else [], lo, next.time)
  {
    var d := Advance(prev, s, maxGap).0;
    assert (kept + [d])[..|kept|] == kept && kept + [] == kept;
  }

  /**
   For any arrival order: n - 1 deltas for n readings, the baseline time is the running maximum, and the non-duplicate
   intervals tile the time from the first reading to that maximum.
   */
  lemma {:induction false} DeltasTile(samples: seq<Reading>, maxGap: real)
    requires samples != []
    ensures var hi := Baseline(samples, maxGap).time;
      && |CounterDeltas(samples, maxGap)| == |samples| - 1
      && Baseline(samples, maxGap) in samples && (forall s | s in samples :: s.time <= hi)
      && Tiles(Filter(CounterDeltas(samples, maxGap), Forward()), samples[0].time, hi)
  {
    var n := |samples| - 1;
    BaselineIsLatest(samples, maxGap);
    if n > 0 {
      DeltasTile(samples[..n], maxGap);
      LastReading(samples, maxGap);
      var ds, prev := CounterDeltas(samples[..n], maxGap), Baseline(samples[..n], maxGap);
      hide CounterDeltas, Baseline, Filter, Tiles, Advance;
      FilterAppend(ds, Advance(prev, samples[n], maxGap).0, Forward());
      AdvanceTiles(Filter(ds, Forward()), samples[0].time, prev, samples[n], maxGap);
    }
  }

  // ----- conservation -----

  function Sum(ds: seq<Delta>): int {
    if ds == [] then 0 else Sum(ds[..|ds| - 1]) + ds[|ds| - 1].delta
  }

  predicate HasReset(ds: seq<Delta>) { exists d | d in ds :: d.quality == Reset }

  /** The deltas from the last reset onward, or all of them without any reset. */
  function SinceReset(ds: seq<Delta>): seq<Delta> {
    if ds == [] then []
    else if ds[|ds| - 1].quality == Reset then [ds[|ds| - 1]]
    else SinceReset(ds[..|ds| - 1]) + [ds[|ds| - 1]]
  }

  lemma SinceResetAppend(ds: seq<Delta>, d: Delta)
    ensures SinceReset(ds + [d]) == if d.quality == Reset then [d] else SinceReset(ds) + [d]
    ensures HasReset(ds + [d]) <==> HasReset(ds) || d.quality == Reset
    ensures Sum(SinceReset(ds + [d])) == (if d.quality == Reset then 0 else Sum(SinceReset(ds))) + d.delta
  {
    assert (ds + [d])[..|ds|] == ds;
    assert (SinceReset(ds) + [d])[..|SinceReset(ds)|] == SinceReset(ds);
    assert d in ds + [d];
    if HasReset(ds) {
      var r :| r in ds && r.quality == Reset;
      assert r in ds + [d];
    }
  }

  /** What readings with the baseline's own time stamp have changed the baseline value by, since the last reset. */
  function Replaced(samples: seq<Reading>, maxGap: real): int {
    if |samples| < 2 then 0
    else ReplacedBy(Baseline(samples[..|samples| - 1], maxGap), samples[|samples| - 1],
      Replaced(samples[..|samples| - 1], maxGap))
  }

  function ReplacedBy(prev: Reading, s: Reading, before: int): int {
    if s.time == prev.time then before + s.value - prev.value
    else if s.time > prev.time && s.value < prev.value then 0
    else before
  }

  /**
    Conservation, for any arrival order: the last accepted value is the sum of the deltas from the last reset onward, or
    the first value plus all deltas, and exactly what equal-time readings silently replaced. So the deltas account for
    the whole count iff those replacements cancel out.
  */
  lemma {:induction false} DeltasConserve(samples: seq<Reading>, maxGap: real)
    requires samples != []
    ensures var ds := CounterDeltas(samples, maxGap);
      Baseline(samples, maxGap).value
        == (if HasReset(ds) then 0 else samples[0].value) + Sum(SinceReset(ds)) + Replaced(samples, maxGap)
  {
    var n := |samples| - 1;
    if n > 0 {
      DeltasConserve(samples[..n], maxGap);
      LastReading(samples, maxGap);
      hide CounterDeltas, Baseline, HasReset, SinceReset, Sum, Advance;
      AdvanceConserves(Baseline(samples[..n], maxGap), samples[n], maxGap, CounterDeltas(samples[..n], maxGap),
        samples[0].value, Replaced(samples[..n], maxGap));
    }
  }

  lemma AdvanceConserves(prev: Reading, s: Reading, maxGap: real, ds: seq<Delta>, first: int, replaced: int)
    requires prev.value == (if HasReset(ds) then 0 else first) + Sum(SinceReset(ds)) + replaced
    ensures var (d, next) := Advance(prev, s, maxGap);
      next.value == (if HasReset(ds + [d]) then 0 else first) + Sum(SinceReset(ds + [d]))
        + ReplacedBy(prev, s, replaced)
  {
    SinceResetAppend(ds, Advance(prev, s, maxGap).0);
    hide HasReset, SinceReset, Sum;
  }

  ghost predicate EqualTimesAgree(samples: seq<Reading>) {
    forall a, b | a in samples && b in samples && a.time == b.time :: a.value == b.value
  }

  /** When equal time stamps carry equal values nothing is replaced, and the deltas account for the whole count. */
  lemma {:induction false} AgreeingTimesLoseNothing(samples: seq<Reading>, maxGap: real)
    requires EqualTimesAgree(samples)
    ensures Replaced(samples, maxGap) == 0
  {
    var n := |samples| - 1;
    if n > 0 {
      var front := samples[..n];
      assert forall x | x in front :: x in samples;
      AgreeingTimesLoseNothing(front, maxGap);
      BaselineIsLatest(front, maxGap);
      LastReading(samples, maxGap);
      assert Baseline(front, maxGap) in samples && samples[n] in samples;
    }
  }

  /** A duplicate that disagrees replaces the baseline value without any delta. */
  lemma DisagreeingDuplicateLosesCount()
    ensures var samples := [Reading(0.0, 5), Reading(0.0, 7)]; var ds := CounterDeltas(samples, 60.0);
      Baseline(samples, 60.0).value != (if HasReset(ds) then 0 else samples[0].value) + Sum(SinceReset(ds))
  {
    var samples := [Reading(0.0, 5), Reading(0.0, 7)];
    assert samples[..1] == [Reading(0.0, 5)];
    assert Replaced(samples, 60.0) == 2 by { assert Replaced(samples[..1], 60.0) == 0; }
    hide *;
    DeltasConserve(samples, 60.0);
  }
}
