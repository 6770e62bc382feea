/** Exactly when the order in which samples arrive can change a rate, and a feature example. */
module ArrivalOrder {
  import opened Sequences
  import opened Detectors
  import opened Streams
  import opened Rates
  import opened Features

  /** The same samples, as often, in another order. */
  ghost predicate Rearranged(a: seq<RawSample>, b: seq<RawSample>) { multiset(a) == multiset(b) }

  // ----- the samples at either end -----

  predicate IsEarliest(s: seq<RawSample>, f: RawSample) { f in s && forall x | x in s :: f.t <= x.t }

  predicate IsLatest(s: seq<RawSample>, l: RawSample) { l in s && forall x | x in s :: x.t <= l.t }

  /** The clamped increase per second from one sample to another. */
  function Between(f: RawSample, l: RawSample): real {
    if l.t <= f.t then 0.0 else Max(0.0, l.value - f.value) / (l.t - f.t)
  }

  /** The rates from an earliest to a latest sample: one for each way the ties at the two ends can fall. */
  function EndRates(s: seq<RawSample>): set<real> {
    if s == [] then {0.0}
    else set f, l | f in s && l in s && IsEarliest(s, f) && IsLatest(s, l) :: Between(f, l)
  }

  /** However the ties at the ends fall, the rate is the same. */
  predicate TiesAgree(s: seq<RawSample>) { forall x, y | x in EndRates(s) && y in EndRates(s) :: x == y }

  lemma FirstIsEarliest(s: seq<RawSample>, pts: seq<RawSample>)
    requires s != [] && |pts| == |s| && SortedBy(pts, RawTime()) && forall x :: x in pts <==> x in s
    ensures IsEarliest(s, pts[0]) && IsLatest(s, pts[|pts| - 1])
  {
    var n := |pts| - 1;
    assert pts[0] in pts && pts[n] in pts;
    forall x | x in s ensures pts[0].t <= x.t <= pts[n].t {
      assert x in pts;
      var k :| 0 <= k < |pts| && pts[k] == x;
      assert k == 0 || RawTime()(pts[0]) <= RawTime()(pts[k]);
      assert k == n || RawTime()(pts[k]) <= RawTime()(pts[n]);
    }
  }

  /** The endpoint rate is one of the end rates. */
  lemma RateIsEndRate(s: seq<RawSample>)
    ensures EndpointRate(s).0 in EndRates(s) && (EndpointRate(s).1 <==> |s| >= 2)
  {
    if s != [] {
      var pts := StableSort(s, RawTime());
      SortSorts(s, RawTime());
      FirstIsEarliest(s, pts);
      hide StableSort, SortedBy;
      assert Between(pts[0], pts[|pts| - 1]) in EndRates(s);
    }
  }

  lemma QuotientTimes(rise: real, span: real)
    requires span > 0.0
    ensures rise / span * span == rise
  {
  }

  /** The rate times the time from f to l is the rise, or 0 when the counter dropped; without a time span it is 0. */
  ghost predicate RateBetween(rate: real, f: RawSample, l: RawSample) {
    if l.t <= f.t then rate == 0.0 else rate * (l.t - f.t) == if l.value >= f.value then l.value - f.value else 0.0
  }

  /** From two samples on, the endpoint rate is that between some earliest and some latest sample. */
  lemma EndpointRateIs(s: seq<RawSample>)
    ensures EndpointRate(s).1 <==> |s| >= 2
    ensures |s| < 2 ==> EndpointRate(s).0 == 0.0
    ensures |s| >= 2 ==>
      exists f, l :: IsEarliest(s, f) && IsLatest(s, l) && RateBetween(EndpointRate(s).0, f, l)
  {
    if |s| >= 2 {
      var pts := StableSort(s, RawTime());
      SortSorts(s, RawTime());
      FirstIsEarliest(s, pts);
      hide StableSort, SortedBy, IsEarliest, IsLatest;
      var f, l := pts[0], pts[|pts| - 1];
      if l.t > f.t { QuotientTimes(Max(0.0, l.value - f.value), l.t - f.t); }
      assert RateBetween(EndpointRate(s).0, f, l);
    }
  }

  lemma SameMembers(a: seq<RawSample>, b: seq<RawSample>)
    requires Rearranged(a, b)
    ensures |a| == |b| && forall x :: x in a <==> x in b
  {
    assert |multiset(a)| == |a| && |multiset(b)| == |b|;
    assert forall x :: x in a <==> x in multiset(a);
    assert forall x :: x in b <==> x in multiset(b);
  }

  lemma SameEndRates(a: seq<RawSample>, b: seq<RawSample>)
    requires Rearranged(a, b)
    ensures EndRates(a) == EndRates(b)
  {
    SameMembers(a, b);
    assert forall x :: IsEarliest(a, x) <==> IsEarliest(b, x);
    assert forall x :: IsLatest(a, x) <==> IsLatest(b, x);
    if a != [] {
      hide IsEarliest, IsLatest, Between;
      forall f, l
        ensures f in a && l in a && IsEarliest(a, f) && IsLatest(a, l)
          <==> f in b && l in b && IsEarliest(b, f) && IsLatest(b, l)
      {
      }
    }
  }

  // ----- moving two samples to the ends -----

  /** s without the last occurrence of x. */
  function Without(s: seq<RawSample>, x: RawSample): seq<RawSample> {
    if s == [] then []
    else
      var n := |s| - 1;
      if s[n] == x then s[..n] else Without(s[..n], x) + [s[n]]
  }

  /** The same samples with f first and l last. */
  function Put(s: seq<RawSample>, f: RawSample, l: RawSample): seq<RawSample> {
    [f] + Without(Without(s, f), l) + [l]
  }

  lemma {:induction false} WithoutKeeps(s: seq<RawSample>, x: RawSample)
    requires x in s
    ensures multiset(Without(s, x)) + multiset{x} == multiset(s)
  {
    var n := |s| - 1;
    assert s == s[..n] + [s[n]];
    if s[n] != x { WithoutKeeps(s[..n], x); }
  }

  lemma {:induction false} WithoutFilter(s: seq<RawSample>, x: RawSample, p: RawSample -> bool)
    ensures Filter(Without(s, x), p) == if p(x) then Without(Filter(s, p), x) else Filter(s, p)
  {
    if s != [] {
      var n := |s| - 1;
      if s[n] == x {
        assert Filter(s[..n], p) + [] == Filter(s[..n], p);
      } else {
        WithoutFilter(s[..n], x, p);
        FilterAppend(Without(s[..n], x), s[n], p);
        assert Filter(s[..n], p) + [] == Filter(s[..n], p);
        assert (Filter(s[..n], p) + [s[n]])[..|Filter(s[..n], p)|] == Filter(s[..n], p);
      }
    }
  }

  lemma PutKeeps(s: seq<RawSample>, f: RawSample, l: RawSample)
    requires f in s && l in s && f != l
    ensures Rearranged(s, Put(s, f, l))
  {
    hide Without;
    WithoutKeeps(s, f);
    assert l in multiset(s);
    assert l in multiset(Without(s, f));
    WithoutKeeps(Without(s, f), l);
  }

  lemma PutFilter(s: seq<RawSample>, f: RawSample, l: RawSample, p: RawSample -> bool)
    requires p(f) == p(l)
    ensures Filter(Put(s, f, l), p) == if p(f) then Put(Filter(s, p), f, l) else Filter(s, p)
  {
    hide Without, Filter;
    var rest := Without(Without(s, f), l);
    WithoutFilter(s, f, p);
    WithoutFilter(Without(s, f), l, p);
    FilterCons(f, rest, p);
    FilterAppend([f] + rest, l, p);
    assert Filter([f] + rest, p) + [] == Filter([f] + rest, p);
  }

  // ----- the sort keeps the ends -----

  lemma {:induction false} InsertBefore(x: RawSample, s: seq<RawSample>, l: RawSample)
    requires x.t <= l.t
    ensures Insert(x, s + [l], RawTime()) == Insert(x, s, RawTime()) + [l]
  {
    if s != [] && x.t > s[0].t {
      InsertBefore(x, s[1..], l);
      assert (s + [l])[1..] == s[1..] + [l];
    } else {
      assert [x] + (s + [l]) == [x] + s + [l];
    }
  }

  /** A last element that no other is later than stays last. */
  lemma {:induction false} LatestStaysLast(s: seq<RawSample>, l: RawSample)
    requires forall x | x in s :: x.t <= l.t
    ensures StableSort(s + [l], RawTime()) == StableSort(s, RawTime()) + [l]
  {
    if s == [] {
      assert [] + [l] == [l] && [l][1..] == [];
      assert StableSort([l], RawTime()) == Insert(l, StableSort([], RawTime()), RawTime()) == [l];
    } else {
      assert forall x | x in s[1..] :: x in s;
      LatestStaysLast(s[1..], l);
      assert (s + [l])[1..] == s[1..] + [l];
      assert s[0] in s;
      InsertBefore(s[0], StableSort(s[1..], RawTime()), l);
    }
  }

  /** A first element that no other is earlier than stays first. */
  lemma EarliestStaysFirst(f: RawSample, s: seq<RawSample>)
    requires forall x | x in s :: f.t <= x.t
    ensures StableSort([f] + s, RawTime())[0] == f
  {
    var pts := StableSort(s, RawTime());
    SortSorts(s, RawTime());
    assert ([f] + s)[1..] == s;
    assert pts != [] ==> pts[0] in pts;
  }

  lemma SortedEnds(f: RawSample, rest: seq<RawSample>, l: RawSample)
    requires f.t <= l.t && forall x | x in rest :: f.t <= x.t <= l.t
    ensures var pts := StableSort([f] + rest + [l], RawTime());
      |pts| == |rest| + 2 && pts[0] == f && pts[|pts| - 1] == l
  {
    hide StableSort;
    LatestStaysLast([f] + rest, l);
    EarliestStaysFirst(f, rest);
  }

  lemma PutMembers(s: seq<RawSample>, f: RawSample, l: RawSample)
    requires f in s && l in s && f != l
    ensures forall x | x in Without(Without(s, f), l) :: x in s
  {
    PutKeeps(s, f, l);
    SameMembers(s, Put(s, f, l));
    hide Without, Rearranged;
    forall x | x in Without(Without(s, f), l) ensures x in s { assert x in Put(s, f, l); }
  }

  lemma PutRate(s: seq<RawSample>, f: RawSample, l: RawSample)
    requires IsEarliest(s, f) && IsLatest(s, l) && f.t < l.t
    ensures EndpointRate(Put(s, f, l)) == (Between(f, l), true)
  {
    PutMembers(s, f, l);
    SortedEnds(f, Without(Without(s, f), l), l);
    hide Without, StableSort;
  }

  /** Without a time span every end rate is 0. */
  lemma NoSpanNoRate(s: seq<RawSample>, f: RawSample, l: RawSample)
    requires IsEarliest(s, f) && IsLatest(s, l) && l.t <= f.t
    ensures EndpointRate(s).0 == 0.0
  {
    RateIsEndRate(s);
    hide EndpointRate;
  }

  // ----- one counter's rate -----

  /** Every end rate is the rate of some arrival order, and of no other metric's. */
  lemma EndRateIsReached(s: seq<RawSample>, x: real) returns (b: seq<RawSample>)
    requires x in EndRates(s)
    ensures Rearranged(s, b) && EndpointRate(b).0 == x
  {
    b := s;
    if s != [] {
      var f, l :| f in s && l in s && IsEarliest(s, f) && IsLatest(s, l) && x == Between(f, l);
      if f.t < l.t {
        b := Put(s, f, l);
        PutKeeps(s, f, l);
        PutRate(s, f, l);
      } else {
        NoSpanNoRate(s, f, l);
      }
    }
  }

  /** One counter's rate does not depend on arrival order exactly when its ties at the ends agree. */
  lemma RateIsOrderFreeIff(s: seq<RawSample>)
    ensures (forall b | Rearranged(s, b) :: EndpointRate(b) == EndpointRate(s)) <==> TiesAgree(s)
  {
    hide EndRates, EndpointRate, Rearranged;
    if TiesAgree(s) {
      forall b | Rearranged(s, b) ensures EndpointRate(b) == EndpointRate(s) {
        SameRate(s, b);
      }
    }
    if forall b | Rearranged(s, b) :: EndpointRate(b) == EndpointRate(s) {
      forall x, y | x in EndRates(s) && y in EndRates(s) ensures x == y {
        var b := EndRateIsReached(s, x);
        var c := EndRateIsReached(s, y);
      }
    }
  }

  lemma SameRate(a: seq<RawSample>, b: seq<RawSample>)
    requires Rearranged(a, b) && TiesAgree(a)
    ensures EndpointRate(a) == EndpointRate(b)
  {
    hide EndRates, EndpointRate, Rearranged;
    RateIsEndRate(a);
    RateIsEndRate(b);
    SameEndRates(a, b);
    SameMembers(a, b);
    assert EndpointRate(a).0 == EndpointRate(b).0 && EndpointRate(a).1 == EndpointRate(b).1;
  }

  // ----- the features -----

  lemma {:induction false} FilterRearranged(a: seq<RawSample>, p: RawSample -> bool, x: RawSample)
    ensures multiset(Filter(a, p))[x] == if p(x) then multiset(a)[x] else 0
  {
    if a != [] {
      var n := |a| - 1;
      FilterRearranged(a[..n], p, x);
      assert a == a[..n] + [a[n]];
    }
  }

  lemma SameChannel(a: seq<RawSample>, b: seq<RawSample>, asOf: real, w: real, m: string)
    requires Rearranged(a, b)
    ensures Rearranged(Window(a, asOf, w), Window(b, asOf, w))
    ensures Rearranged(Channel(Window(a, asOf, w), m), Channel(Window(b, asOf, w), m))
  {
    var wa, wb := Window(a, asOf, w), Window(b, asOf, w);
    forall x ensures multiset(wa)[x] == multiset(wb)[x] {
      FilterRearranged(a, InWindow(asOf, w), x);
      FilterRearranged(b, InWindow(asOf, w), x);
    }
    forall x ensures multiset(Channel(wa, m))[x] == multiset(Channel(wb, m))[x] {
      FilterRearranged(wa, OfMetric(m), x);
      FilterRearranged(wb, OfMetric(m), x);
    }
  }

  /** Every end rate of one metric is its rate in some arrival order that leaves all other metrics alone. */
  lemma ChannelRateIsReached(a: seq<RawSample>, asOf: real, w: real, m: string, x: real) returns (b: seq<RawSample>)
    requires x in EndRates(Channel(Window(a, asOf, w), m))
    ensures Rearranged(a, b) && RateOf(Window(b, asOf, w), m) == x
    ensures forall k | k != m :: Channel(Window(b, asOf, w), k) == Channel(Window(a, asOf, w), k)
  {
    b := a;
    var s := Channel(Window(a, asOf, w), m);
    if s != [] {
      var f, l :| f in s && l in s && IsEarliest(s, f) && IsLatest(s, l) && x == Between(f, l);
      if f.t < l.t {
        FilterMembers(a, InWindow(asOf, w));
        FilterMembers(Window(a, asOf, w), OfMetric(m));
        assert InWindow(asOf, w)(f) && InWindow(asOf, w)(l) && OfMetric(m)(f) && OfMetric(m)(l);
        b := Put(a, f, l);
        PutKeeps(a, f, l);
        PutFilter(a, f, l, InWindow(asOf, w));
        PutFilter(Window(a, asOf, w), f, l, OfMetric(m));
        PutRate(s, f, l);
        forall k | k != m ensures Channel(Window(b, asOf, w), k) == Channel(Window(a, asOf, w), k) {
          PutFilter(Window(a, asOf, w), f, l, OfMetric(k));
        }
      } else {
        NoSpanNoRate(s, f, l);
      }
    }
  }

  /** No pair of end rates of the two octet counters gives another utilisation. */
  predicate UtilAgrees(ins: set<real>, outs: set<real>, capacity: real)
    requires capacity != 0.0
  {
    forall x, y | x in ins && y in outs :: forall x', y' | x' in ins && y' in outs ::
      Utilisation(x, y, capacity) == Utilisation(x', y', capacity)
  }

  /** However the ties at the ends of the window's counters fall, the features are the same. */
  predicate FeaturesAgree(win: seq<RawSample>, capacity: real) {
    capacity == 0.0 || (
      && UtilAgrees(EndRates(Channel(win, "in_octets")), EndRates(Channel(win, "out_octets")), capacity)
      && TiesAgree(Channel(win, "in_error_packets")) && TiesAgree(Channel(win, "out_error_packets"))
      && TiesAgree(Channel(win, "in_discarded_packets")) && TiesAgree(Channel(win, "out_discarded_packets")))
  }

  lemma SameAge(a: seq<RawSample>, b: seq<RawSample>, asOf: real, w: real)
    requires Rearranged(a, b)
    ensures SampleAge(a, asOf, w) == SampleAge(b, asOf, w)
  {
    SameMembers(a, b);
    if a != [] {
      assert a[0] in b;
      var (x, y) := (Latest(a), Latest(b));
      var s :| s in a && s.t == x;
      var u :| u in b && u.t == y;
    }
  }

  /** What two windows must share for the features to agree, apart from the rates. */
  lemma SameShape(a: seq<RawSample>, b: seq<RawSample>, asOf: real, w: real, m: string)
    requires Rearranged(a, b)
    ensures var wa, wb := Window(a, asOf, w), Window(b, asOf, w);
      && SampleAge(wa, asOf, w) == SampleAge(wb, asOf, w)
      && |Channel(wa, m)| == |Channel(wb, m)| && Rated(wa, m) == Rated(wb, m)
      && EndRates(Channel(wa, m)) == EndRates(Channel(wb, m))
      && RateOf(wa, m) in EndRates(Channel(wa, m)) && RateOf(wb, m) in EndRates(Channel(wb, m))
  {
    hide Rearranged, EndRates, EndpointRate, Window, Channel, SampleAge;
    var wa, wb := Window(a, asOf, w), Window(b, asOf, w);
    SameChannel(a, b, asOf, w, m);
    SameAge(wa, wb, asOf, w);
    SameMembers(Channel(wa, m), Channel(wb, m));
    SameEndRates(Channel(wa, m), Channel(wb, m));
    RateIsEndRate(Channel(wa, m));
    RateIsEndRate(Channel(wb, m));
  }

  lemma AgreeingRate(a: seq<RawSample>, b: seq<RawSample>, asOf: real, w: real, m: string)
    requires Rearranged(a, b) && TiesAgree(Channel(Window(a, asOf, w), m))
    ensures RateOf(Window(a, asOf, w), m) == RateOf(Window(b, asOf, w), m)
  {
    hide Rearranged, EndRates, Window, Channel, RateOf;
    SameShape(a, b, asOf, w, m);
  }

  lemma AgreeingUtil(a: seq<RawSample>, b: seq<RawSample>, asOf: real, w: real, capacity: real)
    requires Rearranged(a, b) && capacity != 0.0
    requires var win := Window(a, asOf, w);
      UtilAgrees(EndRates(Channel(win, "in_octets")), EndRates(Channel(win, "out_octets")), capacity)
    ensures UtilRatio(Window(a, asOf, w), capacity) == UtilRatio(Window(b, asOf, w), capacity)
  {
    hide Rearranged, EndRates, Window, Channel, RateOf, Utilisation;
    SameShape(a, b, asOf, w, "in_octets");
    SameShape(a, b, asOf, w, "out_octets");
  }

  lemma SameMask(a: seq<RawSample>, b: seq<RawSample>, asOf: real, w: real)
    requires Rearranged(a, b)
    ensures MissingMask(Window(a, asOf, w)) == MissingMask(Window(b, asOf, w))
    ensures SampleAge(Window(a, asOf, w), asOf, w) == SampleAge(Window(b, asOf, w), asOf, w)
  {
    hide Rearranged, EndRates, Window, Channel, SampleAge, RateOf, Rated, Bit;
    forall m: string
      ensures Rated(Window(a, asOf, w), m) == Rated(Window(b, asOf, w), m)
      ensures |Channel(Window(a, asOf, w), m)| == |Channel(Window(b, asOf, w), m)|
    {
      SameShape(a, b, asOf, w, m);
    }
    SameShape(a, b, asOf, w, "");
  }

  lemma AgreeingOrders(a: seq<RawSample>, b: seq<RawSample>, asOf: real, w: real, capacity: real)
    requires Rearranged(a, b) && FeaturesAgree(Window(a, asOf, w), capacity)
    ensures CausalFeatures(a, asOf, w, capacity) == CausalFeatures(b, asOf, w, capacity)
  {
    hide Rearranged, EndRates, Window, Channel, SampleAge, RateOf, MissingMask, UtilRatio, UtilAgrees, TiesAgree;
    if capacity != 0.0 {
      AgreeingUtil(a, b, asOf, w, capacity);
      AgreeingRate(a, b, asOf, w, "in_error_packets");
      AgreeingRate(a, b, asOf, w, "out_error_packets");
      AgreeingRate(a, b, asOf, w, "in_discarded_packets");
      AgreeingRate(a, b, asOf, w, "out_discarded_packets");
      SameMask(a, b, asOf, w);
    }
  }

  /** If a sum of two rates is the same in every order, neither rate depends on the order. */
  lemma SumForcesRate(a: seq<RawSample>, asOf: real, w: real, m: string, k: string, total: real)
    requires m != k
    requires forall b | Rearranged(a, b) :: RateOf(Window(b, asOf, w), m) + RateOf(Window(b, asOf, w), k) == total
    ensures TiesAgree(Channel(Window(a, asOf, w), m))
  {
    hide Rearranged, EndRates, EndpointRate, Window, Channel;
    var s := Channel(Window(a, asOf, w), m);
    forall x, y | x in EndRates(s) && y in EndRates(s) ensures x == y {
      var b := ChannelRateIsReached(a, asOf, w, m, x);
      var c := ChannelRateIsReached(a, asOf, w, m, y);
      assert RateOf(Window(b, asOf, w), k) == RateOf(Window(c, asOf, w), k);
    }
  }

  /** Both octet counters can be given any of their end rates at once. */
  lemma OctetRatesAreReached(a: seq<RawSample>, asOf: real, w: real, x: real, y: real) returns (b: seq<RawSample>)
    requires x in EndRates(Channel(Window(a, asOf, w), "in_octets"))
    requires y in EndRates(Channel(Window(a, asOf, w), "out_octets"))
    ensures Rearranged(a, b)
    ensures RateOf(Window(b, asOf, w), "in_octets") == x && RateOf(Window(b, asOf, w), "out_octets") == y
  {
    hide EndRates, EndpointRate, Window, Channel;
    var c := ChannelRateIsReached(a, asOf, w, "in_octets", x);
    b := ChannelRateIsReached(c, asOf, w, "out_octets", y);
  }

  lemma OrderFreeAgrees(a: seq<RawSample>, asOf: real, w: real, capacity: real, e: Example)
    requires capacity != 0.0
    requires forall b | Rearranged(a, b) :: CausalFeatures(b, asOf, w, capacity) == Some(e)
    ensures FeaturesAgree(Window(a, asOf, w), capacity)
  {
    hide Rearranged, EndRates, EndpointRate, Window, Channel, RateOf, SampleAge, MissingMask, Utilisation, TiesAgree;
    SumForcesRate(a, asOf, w, "in_error_packets", "out_error_packets", e.errorRate);
    SumForcesRate(a, asOf, w, "out_error_packets", "in_error_packets", e.errorRate);
    SumForcesRate(a, asOf, w, "in_discarded_packets", "out_discarded_packets", e.discardRate);
    SumForcesRate(a, asOf, w, "out_discarded_packets", "in_discarded_packets", e.discardRate);
    var win := Window(a, asOf, w);
    var ins, outs := EndRates(Channel(win, "in_octets")), EndRates(Channel(win, "out_octets"));
    forall x, y | x in ins && y in outs ensures Utilisation(x, y, capacity) == e.utilRatio {
      var b := OctetRatesAreReached(a, asOf, w, x, y);
    }
  }

  /**
    The features are the same in every arrival order exactly when the ties at the two ends of each counter's window
    agree: on one rate for errors and discards, on one utilisation for octets.
  */
  lemma ArrivalOrderMattersIff(a: seq<RawSample>, asOf: real, w: real, capacity: real)
    ensures (forall b | Rearranged(a, b) ::
               CausalFeatures(b, asOf, w, capacity) == CausalFeatures(a, asOf, w, capacity))
       <==> FeaturesAgree(Window(a, asOf, w), capacity)
  {
    hide Rearranged, Window;
    var f := CausalFeatures(a, asOf, w, capacity);
    if FeaturesAgree(Window(a, asOf, w), capacity) {
      hide FeaturesAgree, CausalFeatures;
      forall b | Rearranged(a, b) ensures CausalFeatures(b, asOf, w, capacity) == f {
        AgreeingOrders(a, b, asOf, w, capacity);
      }
    }
    if (forall b | Rearranged(a, b) :: CausalFeatures(b, asOf, w, capacity) == f) && capacity != 0.0 {
      OrderFreeAgrees(a, asOf, w, capacity, f.value);
    }
  }

  /** When no counter's end ties disagree, the features do not depend on arrival order, whatever the capacity. */
  lemma ArrivalOrderDoesNotMatter(a: seq<RawSample>, b: seq<RawSample>, asOf: real, w: real, capacity: real)
    requires Rearranged(a, b)
    requires forall m | m in COUNTER_METRICS :: TiesAgree(Channel(Window(a, asOf, w), m))
    ensures CausalFeatures(a, asOf, w, capacity) == CausalFeatures(b, asOf, w, capacity)
  {
    hide Rearranged, EndRates, Window, Channel, CausalFeatures;
    forall i | 0 <= i < 6 ensures TiesAgree(Channel(Window(a, asOf, w), COUNTER_METRICS[i])) {}
    AgreeingOrders(a, b, asOf, w, capacity);
  }

  /** A counter without two samples at one time has no ties to fall. */
  lemma DistinctStampsAgree(s: seq<RawSample>)
    requires DistinctBy(s, RawTime())
    ensures TiesAgree(s)
  {
    forall f, g | f in s && g in s && f != g ensures f.t != g.t {
      var i :| 0 <= i < |s| && s[i] == f;
      var j :| 0 <= j < |s| && s[j] == g;
      var (first, second) := if i < j then (i, j) else (j, i);
      assert RawTime()(s[first]) != RawTime()(s[second]);
    }
    hide Between, DistinctBy;
  }

  /** With two samples of a counter at the last time stamp, arrival order decides which one the features see. */
  lemma TiedStampsDependOnOrder()
    ensures exists a: seq<RawSample>, b: seq<RawSample> ::
      Rearranged(a, b) && CausalFeatures(a, 1.0, 1.0, 32.0) != CausalFeatures(b, 1.0, 1.0, 32.0)
  {
    var x, y, z := RawSample(0.0, "in_octets", 0.0), RawSample(1.0, "in_octets", 1.0), RawSample(1.0, "in_octets", 2.0);
    var a := [x, y, z];
    TiedWindow(a);
    TiedOctets(x, y, z);
    ArrivalOrderMattersIff(a, 1.0, 1.0, 32.0);
  }

  lemma TiedWindow(a: seq<RawSample>)
    requires forall x | x in a :: x.metric == "in_octets" && 0.0 <= x.t <= 1.0
    ensures Channel(Window(a, 1.0, 1.0), "in_octets") == a && Channel(Window(a, 1.0, 1.0), "out_octets") == []
  {
    FilterAll(a, InWindow(1.0, 1.0));
    FilterAll(a, OfMetric("in_octets"));
    assert "in_octets"[0] != "out_octets"[0];
    FilterNone(a, OfMetric("out_octets"));
  }

  lemma TiedOctets(x: RawSample, y: RawSample, z: RawSample)
    requires x == RawSample(0.0, "in_octets", 0.0)
    requires y == RawSample(1.0, "in_octets", 1.0) && z == RawSample(1.0, "in_octets", 2.0)
    ensures !UtilAgrees(EndRates([x, y, z]), EndRates([]), 32.0)
  {
    var s := [x, y, z];
    assert s[0] in s && s[1] in s && s[2] in s;
    assert IsEarliest(s, x) && IsLatest(s, y) && IsLatest(s, z);
    assert Between(x, y) in EndRates(s) && Between(x, z) in EndRates(s) && 0.0 in EndRates([]);
    assert Between(x, y) == 1.0 && Between(x, z) == 2.0;
    assert Utilisation(1.0, 0.0, 32.0) == 0.25 && Utilisation(2.0, 0.0, 32.0) == 0.5;
  }

}
