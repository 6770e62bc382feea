/** Alarm raise timing: persistence, clear-hysteresis and cooldown, shared by every detector. */
module Debouncing {
  import opened Sequences

  datatype Config = Config(persistence: int, cooldown: real) {
    predicate Valid() { persistence >= 1 && cooldown >= 0.0 }
  }

  datatype DebState = DebState(run: nat, armed: bool, lastRaise: Option<real>)

  const FRESH := DebState(0, true, None)

  /** One sample's crossing flag: the next state, and whether this sample raises. */
  function Observed(c: Config, d: DebState, t: real, crossing: bool): (DebState, bool) {
    if !crossing then (d.(run := 0, armed := true), false)
    else if d.run + 1 < c.persistence || !d.armed then (d.(run := d.run + 1), false)
    else if d.lastRaise.Some? && t - d.lastRaise.value < c.cooldown then (d.(run := d.run + 1), false)
    else (DebState(d.run + 1, false, Some(t)), true)
  }

  class Debouncer {
    const config: Config
    var run: nat
    var armed: bool
    var lastRaise: Option<real>

    function State(): DebState
      reads this
    {
      DebState(run, armed, lastRaise)
    }

    constructor (config: Config)
      requires config.Valid()
      ensures this.config == config && State() == FRESH
    {
      this.config := config;
      run, armed, lastRaise := 0, true, None;
    }

    /** Building with a bad configuration raises ValueError: no debouncer. */
    static method Create(config: Config) returns (d: Debouncer?)
      ensures d != null <==> config.Valid()
      ensures d != null ==> fresh(d) && d.config == config && d.State() == FRESH
    {
      if config.persistence < 1 || config.cooldown < 0.0 { return null; }
      d := new Debouncer(config);
    }

    method Observe(t: real, crossing: bool) returns (raised: bool)
      modifies this
      ensures (State(), raised) == Observed(config, old(State()), t, crossing)
    {
      if !crossing {
        run := 0;
        armed := true;
        return false;
      }
      run := run + 1;
      if run < config.persistence || !armed { return false; }
      if lastRaise.Some? && t - lastRaise.value < config.cooldown { return false; }
      armed := false;
      lastRaise := Some(t);
      return true;
    }
  }

  // ----- the history specification -----

  /** One observed sample. */
  datatype Obs = Obs(t: real, crossing: bool)

  /** The length of the crossing run that ends the history. */
  function RunLength(h: seq<Obs>): (n: nat)
    ensures n <= |h|
  {
    if h == [] || !h[|h| - 1].crossing then 0 else RunLength(h[..|h| - 1]) + 1
  }

  /**
    Sample i raises: its crossing run is long enough, has not raised before, and every earlier raise is at least
    cooldown old.
  */
  predicate RaisesAt(c: Config, h: seq<Obs>, i: nat)
    requires i < |h|
    decreases i
  {
    && h[i].crossing
    && RunLength(h[..i + 1]) >= c.persistence
    && (forall k | i + 1 - RunLength(h[..i + 1]) <= k < i :: !RaisesAt(c, h, k))
    && (forall k | 0 <= k < i :: RaisesAt(c, h, k) ==> h[i].t - h[k].t >= c.cooldown)
  }

  function StateAfter(c: Config, h: seq<Obs>): DebState {
    if h == [] then FRESH else
    var last := h[|h| - 1];
    Observed(c, StateAfter(c, h[..|h| - 1]), last.t, last.crossing).0
  }

  /** The machine's answer on sample i of the history. */
  predicate Raised(c: Config, h: seq<Obs>, i: nat)
    requires i < |h|
  {
    Observed(c, StateAfter(c, h[..i]), h[i].t, h[i].crossing).1
  }

  /** No raise among the last k samples of the first n. */
  ghost predicate QuietFor(c: Config, h: seq<Obs>, n: nat, k: nat)
    requires k <= n <= |h|
  {
    forall i | n - k <= i < n :: !RaisesAt(c, h, i)
  }

  /** The state's last raise is the latest raise of the history, and no earlier one is later in time. */
  ghost predicate LastRaiseIs(c: Config, h: seq<Obs>, n: nat, last: Option<real>)
    requires n <= |h|
  {
    && (last.None? ==> forall i | 0 <= i < n :: !RaisesAt(c, h, i))
    && (last.Some? ==>
          && (exists i | 0 <= i < n :: RaisesAt(c, h, i) && h[i].t == last.value)
          && (forall i | 0 <= i < n :: RaisesAt(c, h, i) ==> h[i].t <= last.value))
  }

  ghost predicate Tracks(c: Config, h: seq<Obs>, n: nat)
    requires n <= |h|
  {
    var d := StateAfter(c, h[..n]);
    && d.run == RunLength(h[..n])
    && (d.armed <==> QuietFor(c, h, n, RunLength(h[..n])))
    && LastRaiseIs(c, h, n, d.lastRaise)
  }

  /** Every raise before sample n is at least cooldown old at sample n. */
  ghost predicate Cooled(c: Config, h: seq<Obs>, n: nat)
    requires n < |h|
  {
    forall i | 0 <= i < n :: RaisesAt(c, h, i) ==> h[n].t - h[i].t >= c.cooldown
  }

  lemma RaisesWhen(c: Config, h: seq<Obs>, n: nat)
    requires n < |h| && h[n].crossing
    ensures RunLength(h[..n + 1]) == RunLength(h[..n]) + 1
    ensures RaisesAt(c, h, n)
      <==> RunLength(h[..n]) + 1 >= c.persistence && QuietFor(c, h, n, RunLength(h[..n])) && Cooled(c, h, n)
  {
    assert h[..n + 1][..n] == h[..n];
  }

  lemma ClearNeverRaises(c: Config, h: seq<Obs>, n: nat)
    requires n < |h| && !h[n].crossing
    ensures !RaisesAt(c, h, n)
  {
  }

  lemma CooledIff(c: Config, h: seq<Obs>, n: nat, last: Option<real>)
    requires n < |h| && LastRaiseIs(c, h, n, last)
    ensures Cooled(c, h, n) <==> last.None? || h[n].t - last.value >= c.cooldown
  {
    hide RaisesAt;
  }

  lemma QuietStep(c: Config, h: seq<Obs>, n: nat, k: nat)
    requires n < |h| && k <= n
    ensures QuietFor(c, h, n + 1, k + 1) <==> QuietFor(c, h, n, k) && !RaisesAt(c, h, n)
    ensures QuietFor(c, h, n + 1, 0)
  {
    hide RaisesAt;
  }

  lemma LastRaiseStep(c: Config, h: seq<Obs>, n: nat, last: Option<real>)
    requires c.Valid() && n < |h| && LastRaiseIs(c, h, n, last) && (RaisesAt(c, h, n) ==> Cooled(c, h, n))
    ensures LastRaiseIs(c, h, n + 1, if RaisesAt(c, h, n) then Some(h[n].t) else last)
  {
    hide RaisesAt;
  }

  /** The next sample raises exactly when the specification says so, and the machine keeps track. */
  lemma TrackStep(c: Config, h: seq<Obs>, n: nat)
    requires c.Valid() && n < |h| && Tracks(c, h, n)
    ensures Raised(c, h, n) <==> RaisesAt(c, h, n)
    ensures Tracks(c, h, n + 1)
  {
    hide RaisesAt, QuietFor, LastRaiseIs, Cooled;
    var d := StateAfter(c, h[..n]);
    assert h[..n + 1][..n] == h[..n];
    if h[n].crossing { RaisesWhen(c, h, n); } else { ClearNeverRaises(c, h, n); }
    CooledIff(c, h, n, d.lastRaise);
    QuietStep(c, h, n, RunLength(h[..n]));
    LastRaiseStep(c, h, n, d.lastRaise);
  }

  lemma {:induction false} TracksAll(c: Config, h: seq<Obs>, n: nat)
    requires c.Valid() && n <= |h|
    ensures Tracks(c, h, n)
  {
    if n == 0 {
      assert h[..0] == [];
    } else {
      hide Tracks;
      TracksAll(c, h, n - 1);
      TrackStep(c, h, n - 1);
    }
  }

  /** The debouncer raises on exactly the samples that the history specification names. */
  lemma DebouncerRefinesHistory(c: Config, h: seq<Obs>, i: nat)
    requires c.Valid() && i < |h|
    ensures Raised(c, h, i) <==> RaisesAt(c, h, i)
  {
    TracksAll(c, h, i);
    TrackStep(c, h, i);
  }

  // ----- how often it can raise -----

  /** The times of the raises, in order. */
  function RaiseTimes(c: Config, h: seq<Obs>): seq<real> {
    if h == [] then [] else
    var n := |h| - 1;
    RaiseTimes(c, h[..n]) + (if Raised(c, h, n) then [h[n].t] else [])
  }

  /** Every raise costs a full run, and a clearing sample before the next one. */
  lemma {:induction false} RaiseBudget(c: Config, h: seq<Obs>)
    ensures var r := |RaiseTimes(c, h)|; var d := StateAfter(c, h);
      if d.armed then r * (c.persistence + 1) + d.run <= |h|
      else r >= 1 && d.run >= c.persistence && (r - 1) * (c.persistence + 1) + d.run <= |h|
  {
    if h != [] {
      RaiseBudget(c, h[..|h| - 1]);
      var r := |RaiseTimes(c, h[..|h| - 1])|;
      assert (r + 1 - 1) * (c.persistence + 1) == (r - 1) * (c.persistence + 1) + (c.persistence + 1);
    }
  }

  /** Successive raises are at least cooldown apart, and the last one is the state's last raise. */
  lemma {:induction false} RaisesSpread(c: Config, h: seq<Obs>)
    ensures var ts := RaiseTimes(c, h); var last := StateAfter(c, h).lastRaise;
      && (last.None? <==> ts == [])
      && (ts != [] ==> ts[|ts| - 1] == last.value && ts[|ts| - 1] - ts[0] >= (|ts| - 1) as real * c.cooldown)
  {
    if h != [] {
      var n := |h| - 1;
      RaisesSpread(c, h[..n]);
      var ts := RaiseTimes(c, h[..n]);
      if ts != [] {
        assert |ts| as real * c.cooldown == (|ts| - 1) as real * c.cooldown + c.cooldown;
      }
    }
  }

  /**
    r raises on n samples satisfy r * (persistence + 1) <= n + 1, and (r - 1) * cooldown is at most the time between the
    first and last raise.
  */
  lemma RaiseRate(c: Config, h: seq<Obs>)
    ensures var ts := RaiseTimes(c, h);
      && |ts| * (c.persistence + 1) <= |h| + 1
      && (ts != [] ==> (|ts| - 1) as real * c.cooldown <= ts[|ts| - 1] - ts[0])
  {
    hide *;
    RaiseBudget(c, h);
    RaisesSpread(c, h);
    var r := |RaiseTimes(c, h)|;
    assert r * (c.persistence + 1) == (r - 1) * (c.persistence + 1) + c.persistence + 1;
  }
}
