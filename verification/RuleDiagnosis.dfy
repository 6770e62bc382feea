/** The deterministic hypothesizer, and the exact diagnoses it leads to. */
module RuleDiagnosis {
  import opened Sequences
  import opened Claims
  import opened Diagnosis

  predicate Down(v: Value) { v.Num? && v.x < 0.5 }

  predicate OperSample(r: Evidence) { r.metric == OPER_STATE }

  function OperOf(subject: string): Evidence -> bool { (r: Evidence) => OperSample(r) && r.subject == subject }

  /** All oper-state records of a subject, in snapshot order. */
  function Samples(records: seq<Evidence>, subject: string): seq<Evidence> { Filter(records, OperOf(subject)) }

  /** The subjects with oper-state records, by first appearance. */
  function Subjects(records: seq<Evidence>): seq<string> {
    if records == [] then []
    else
      var front, r := Subjects(records[..|records| - 1]), records[|records| - 1];
      if !OperSample(r) || r.subject in front then front else front + [r.subject]
  }

  predicate EverDown(records: seq<Evidence>, subject: string) {
    exists r | r in records :: OperSample(r) && r.subject == subject && Down(r.value)
  }

  function WasDown(records: seq<Evidence>): string -> bool { (subject: string) => EverDown(records, subject) }

  function FirstThree(subjects: seq<string>): seq<string> {
    if |subjects| <= MAX_HYPOTHESES then subjects else subjects[..MAX_HYPOTHESES]
  }

  /** The first three subjects with any down sample. */
  function Candidates(records: seq<Evidence>): seq<string> { FirstThree(Filter(Subjects(records), WasDown(records))) }

  function Earliest(rs: seq<Evidence>): (t: real)
    requires rs != []
    ensures forall r | r in rs :: t <= r.at
  {
    if |rs| == 1 then rs[0].at
    else
      var rest := Earliest(rs[1..]);
      assert forall r | r in rs :: r == rs[0] || r in rs[1..];
      if rs[0].at <= rest then rs[0].at else rest
  }

  function Ids(rs: seq<Evidence>): seq<string> { seq(|rs|, i requires 0 <= i < |rs| => rs[i].id) }

  function LinkDown(subject: string, rs: seq<Evidence>, asOf: real): Hypothesis {
    var from := if rs == [] then asOf else Earliest(rs);
    Hypothesis(LINK_DOWN, subject,
      [Claim("oper-down::" + subject, Sustained, subject, OPER_STATE, Less, Num(0.5), "state", from, asOf, true,
        Ids(rs))])
  }

  function HypothesesFor(subjects: seq<string>, s: Snapshot): seq<Hypothesis> {
    seq(|subjects|, i requires 0 <= i < |subjects| => LinkDown(subjects[i], Samples(s.records, subjects[i]), s.asOf))
  }

  function Hypothesized(s: Snapshot): seq<Hypothesis> { HypothesesFor(Candidates(s.records), s) }

  // ----- the hypothesizer as it runs -----

  lemma SamplesAppend(records: seq<Evidence>, r: Evidence, subject: string)
    ensures Samples(records + [r], subject) == Samples(records, subject) + if OperOf(subject)(r) then [r] else []
  {
    FilterAppend(records, r, OperOf(subject));
  }

  lemma {:induction false} SubjectsMembers(records: seq<Evidence>, subject: string)
    ensures subject in Subjects(records) <==> exists r | r in records :: OperSample(r) && r.subject == subject
  {
    if records != [] { SubjectsMembers(records[..|records| - 1], subject); }
  }

  lemma EverDownAppend(records: seq<Evidence>, r: Evidence, subject: string)
    ensures EverDown(records + [r], subject) <==> EverDown(records, subject) || (OperOf(subject)(r) && Down(r.value))
  {
    var longer := records + [r];
    assert forall e :: e in longer <==> e in records || e == r;
  }

  /** The dictionary of samples and the set of subjects seen down, after the given records. */
  ghost predicate Grouped(records: seq<Evidence>, oper: map<string, seq<Evidence>>, anyDown: set<string>) {
    && (forall x :: x in oper <==> x in Subjects(records))
    && (forall x | x in oper :: oper[x] == Samples(records, x))
    && (forall x :: x in anyDown <==> EverDown(records, x))
  }

  function OperAfter(oper: map<string, seq<Evidence>>, r: Evidence): map<string, seq<Evidence>> {
    if !OperSample(r) then oper
    else oper[r.subject := (if r.subject in oper then oper[r.subject] else []) + [r]]
  }

  function DownAfter(anyDown: set<string>, r: Evidence): set<string> {
    if OperSample(r) && Down(r.value) then anyDown + {r.subject} else anyDown
  }

  lemma GroupStep(records: seq<Evidence>, r: Evidence, oper: map<string, seq<Evidence>>, anyDown: set<string>)
    requires Grouped(records, oper, anyDown)
    ensures Grouped(records + [r], OperAfter(oper, r), DownAfter(anyDown, r))
  {
    assert (records + [r])[..|records|] == records;
    var after := OperAfter(oper, r);
    forall x | x in after ensures after[x] == Samples(records + [r], x) {
      SamplesAppend(records, r, x);
      if x !in oper {
        SubjectsMembers(records, x);
        FilterNone(records, OperOf(x));
      }
    }
    forall x ensures x in DownAfter(anyDown, r) <==> EverDown(records + [r], x) { EverDownAppend(records, r, x); }
  }

  method Group(records: seq<Evidence>)
      returns (order: seq<string>, oper: map<string, seq<Evidence>>, anyDown: set<string>)
    ensures order == Subjects(records) && Grouped(records, oper, anyDown)
  {
    order, oper, anyDown := [], map[], {};
    for i := 0 to |records|
      invariant order == Subjects(records[..i])
      invariant Grouped(records[..i], oper, anyDown)
    {
      var r := records[i];
      GroupStep(records[..i], r, oper, anyDown);
      assert records[..i + 1] == records[..i] + [r];
      assert records[..i + 1][..i] == records[..i];
      if r.metric == OPER_STATE {
        if r.subject !in oper {
          order := order + [r.subject];
          oper := oper[r.subject := []];
        }
        oper := oper[r.subject := oper[r.subject] + [r]];
        if r.value.Num? && r.value.x < 0.5 { anyDown := anyDown + {r.subject}; }
      }
    }
    assert records[..|records|] == records;
  }

  /** What the loop has emitted after the given subjects. */
  function Emitted(subjects: seq<string>, s: Snapshot): seq<Hypothesis> {
    HypothesesFor(FirstThree(Filter(subjects, WasDown(s.records))), s)
  }

  lemma EmittedStep(front: seq<string>, x: string, s: Snapshot)
    ensures Emitted(front + [x], s) == Emitted(front, s)
      + if EverDown(s.records, x) && |Emitted(front, s)| < MAX_HYPOTHESES then
        [LinkDown(x, Samples(s.records, x), s.asOf)] else []
  {
    var kept := Filter(front, WasDown(s.records));
    FilterAppend(front, x, WasDown(s.records));
    if |kept| >= MAX_HYPOTHESES {
      assert FirstThree(kept + [x]) == FirstThree(kept);
    }
  }

  method Hypothesize(s: Snapshot) returns (out: seq<Hypothesis>)
    ensures out == Hypothesized(s)
  {
    var order, oper, anyDown := Group(s.records);
    out := [];
    assert order[..0] == [] && Emitted([], s) == [];
    hide Filter, Samples, LinkDown, Emitted;
    for i := 0 to |order|
      invariant out == Emitted(order[..i], s)
    {
      var subject := order[i];
      assert order[..i + 1] == order[..i] + [subject];
      EmittedStep(order[..i], subject, s);
      if subject !in anyDown || |out| >= MAX_HYPOTHESES { continue; }
      assert subject in oper;
      out := out + [LinkDown(subject, oper[subject], s.asOf)];
    }
    assert order[..|order|] == order;
    EmittedIsHypothesized(s);
  }

  lemma EmittedIsHypothesized(s: Snapshot)
    ensures Emitted(Subjects(s.records), s) == Hypothesized(s)
  {
  }

  // ----- exact diagnosis -----

  /** r is the record its id resolves to. */
  predicate Visible(records: seq<Evidence>, r: Evidence) { ById(records, r.id) == Some(r) }

  /** An oper-state sample of the subject in the state unit and not after the snapshot. */
  ghost predicate Timely(s: Snapshot, subject: string, r: Evidence) {
    r in s.records && OperOf(subject)(r) && r.unit == "state" && r.at <= s.asOf
  }

  /** Some timely sample of the subject is visible, and every visible one is down. */
  ghost predicate VisiblyDown(s: Snapshot, subject: string) {
    && (exists r :: Timely(s, subject, r) && Visible(s.records, r))
    && forall r | Timely(s, subject, r) && Visible(s.records, r) :: Down(r.value)
  }

  ghost predicate UniqueIds(records: seq<Evidence>) {
    forall i, j | 0 <= i < j < |records| :: records[i].id != records[j].id
  }

  /** The subject has a timely sample, and every one is down. */
  ghost predicate AlwaysDown(s: Snapshot, subject: string) {
    && (exists r :: Timely(s, subject, r))
    && forall r | Timely(s, subject, r) :: Down(r.value)
  }

  lemma {:induction false} UniqueIsVisible(records: seq<Evidence>, r: Evidence)
    requires UniqueIds(records) && r in records
    ensures Visible(records, r)
  {
    if records[0] != r {
      var k :| 0 < k < |records| && records[k] == r;
      UniqueIsVisible(records[1..], r);
    }
  }

  /** The rule's claim is about exactly the visible timely samples of its subject. */
  lemma ReferencedIsVisible(s: Snapshot, subject: string, r: Evidence)
    ensures Referenced(LinkDown(subject, Samples(s.records, subject), s.asOf).claims[0], s.records, r)
       <==> Timely(s, subject, r) && Visible(s.records, r)
  {
    var rs := Samples(s.records, subject);
    FilterMembers(s.records, OperOf(subject));
    if r in s.records && OperOf(subject)(r) && Visible(s.records, r) {
      var k :| 0 <= k < |rs| && rs[k] == r;
      assert Ids(rs)[k] == r.id;
    }
  }

  lemma SustainedLess(c: Claim, s: Snapshot)
    requires c.kind == Sustained && c.op == Less && c.comparison == Num(0.5) && c.polarity
    ensures Verify(c, s) == Supported
      <==> Matched(c, s.records) != [] && forall r | r in Matched(c, s.records) :: Down(r.value)
  {
  }

  lemma RuleHypothesisCommits(subject: string, rs: seq<Evidence>, s: Snapshot)
    ensures Commits(LinkDown(subject, rs, s.asOf), s)
      <==> Verify(LinkDown(subject, rs, s.asOf).claims[0], s) == Supported
  {
    var h := LinkDown(subject, rs, s.asOf);
    CommitsIff(h, s);
    assert h.claims[0] in h.claims && DefinitionOf(h.name).value.EntailedBy(h.claims[0]);
  }

  lemma RuleClaimIff(s: Snapshot, subject: string)
    ensures Commits(LinkDown(subject, Samples(s.records, subject), s.asOf), s) <==> VisiblyDown(s, subject)
  {
    var c := LinkDown(subject, Samples(s.records, subject), s.asOf).claims[0];
    RuleHypothesisCommits(subject, Samples(s.records, subject), s);
    var matched := Matched(c, s.records);
    forall r ensures r in matched <==> Timely(s, subject, r) && Visible(s.records, r) {
      MatchedIsReferenced(c, s.records, r);
      ReferencedIsVisible(s, subject, r);
    }
    SustainedLess(c, s);
    if matched != [] { assert matched[0] in matched; }
  }

  /** Each candidate has samples, one of them down. */
  lemma CandidateSampled(records: seq<Evidence>, subject: string)
    requires subject in Candidates(records)
    ensures EverDown(records, subject) && Samples(records, subject) != []
  {
    FilterMembers(Subjects(records), WasDown(records));
    FilterMembers(records, OperOf(subject));
    assert subject in Filter(Subjects(records), WasDown(records));
    assert WasDown(records)(subject);
    var r :| r in records && OperSample(r) && r.subject == subject && Down(r.value);
    assert OperOf(subject)(r);
    assert r in Samples(records, subject);
  }

  /** Exact for every snapshot, whatever its units and values and whether or not ids repeat. */
  lemma RuleDiagnosisIsExact(s: Snapshot)
    ensures var o, subjects := Decided(Hypothesized(s), s), Candidates(s.records);
      && (o.Diagnosed? <==> exists k: nat | k < |subjects| :: VisiblyDown(s, subjects[k]))
      && (o.Diagnosed? ==> o.name == LINK_DOWN && o.template == "tmpl-restart-interface")
      && (o.Diagnosed? ==> exists k: nat | k < |subjects| ::
            o.subject == subjects[k] && VisiblyDown(s, subjects[k])
            && forall j: nat | j < k :: !VisiblyDown(s, subjects[j]))
  {
    var subjects, hs := Candidates(s.records), Hypothesized(s);
    assert Considered(hs) == hs;
    forall k: nat | k < |subjects| ensures Commits(hs[k], s) <==> VisiblyDown(s, subjects[k]) {
      RuleClaimIff(s, subjects[k]);
    }
    var k := FirstCommit(hs, s);
    if k < |hs| {
      assert VisiblyDown(s, subjects[k]) && hs[k].subject == subjects[k];
    }
  }

  /**
    With unique evidence ids the rule path diagnoses a down link iff one of the first three subjects seen down was down
    in every one of its timely samples, and names the first such subject: one up sample in the window always defeats it.
  */
  lemma UniqueIdsDiagnoseSustainedDown(s: Snapshot)
    requires UniqueIds(s.records)
    ensures var o, subjects := Decided(Hypothesized(s), s), Candidates(s.records);
      && (o.Diagnosed? <==> exists k: nat | k < |subjects| :: AlwaysDown(s, subjects[k]))
      && (o.Diagnosed? ==> exists k: nat | k < |subjects| ::
            o.subject == subjects[k] && AlwaysDown(s, subjects[k])
            && forall j: nat | j < k :: !AlwaysDown(s, subjects[j]))
  {
    var subjects := Candidates(s.records);
    RuleDiagnosisIsExact(s);
    forall k: nat | k < |subjects| ensures VisiblyDown(s, subjects[k]) <==> AlwaysDown(s, subjects[k]) {
      forall r | r in s.records ensures Visible(s.records, r) { UniqueIsVisible(s.records, r); }
    }
  }

  lemma OneKept(x: string, p: string -> bool)
    requires p(x)
    ensures Filter([x], p) == [x]
  {
    FilterAppend([], x, p);
    assert [] + [x] == [x];
  }

  lemma OneSubject(a: Evidence, b: Evidence)
    requires OperSample(a) && a.subject == b.subject
    ensures Subjects([a, b]) == [a.subject]
  {
    SubjectsAppend([], a);
    SubjectsAppend([a], b);
    assert [] + [a] == [a] && [a] + [b] == [a, b];
    assert Subjects([]) == [];
    hide Subjects;
  }

  lemma TwoSamples(a: Evidence, b: Evidence)
    requires OperSample(a) && a.subject == b.subject && Down(a.value)
    ensures Candidates([a, b]) == [a.subject]
  {
    hide Subjects, Filter;
    assert a in [a, b];
    OneSubject(a, b);
    OneKept(a.subject, WasDown([a, b]));
  }

  lemma SubjectsAppend(records: seq<Evidence>, r: Evidence)
    ensures Subjects(records + [r])
         == if !OperSample(r) || r.subject in Subjects(records) then Subjects(records)
           else Subjects(records) + [r.subject]
  {
    assert (records + [r])[..|records|] == records;
  }

  /**
    Unique ids are needed: a later up sample with a repeated id is never looked at, so a flapping link is diagnosed.
  */
  lemma HiddenSampleIsIgnored()
    ensures exists s: Snapshot ::
      var o := Decided(Hypothesized(s), s);
      o.Diagnosed? && exists r :: Timely(s, o.subject, r) && !Down(r.value)
  {
    var down := Evidence("e", "if", OPER_STATE, Num(0.0), "state", 0.0, true);
    var up := down.(value := Num(1.0));
    var s := Snapshot(1.0, [down, up]);
    assert down in s.records && up in s.records && EverDown(s.records, "if");
    TwoSamples(down, up);
    RuleDiagnosisIsExact(s);
    hide Decided, Hypothesized, Candidates, EverDown;
    assert Visible(s.records, down) && !Visible(s.records, up);
    assert Timely(s, "if", down) && Timely(s, "if", up) && !Down(up.value);
    assert VisiblyDown(s, Candidates(s.records)[0]);
  }

  // ----- what is claimed -----

  lemma {:induction false} EarliestIsReached(rs: seq<Evidence>)
    requires rs != []
    ensures exists r | r in rs :: r.at == Earliest(rs)
  {
    if |rs| > 1 {
      EarliestIsReached(rs[1..]);
      assert forall r | r in rs[1..] :: r in rs;
    }
    assert rs[0] in rs;
  }

  /**
    Each candidate gets one hypothesis with one claim: from its earliest sample to the snapshot, every one of its
    oper-state samples, all of them cited in order, is below 0.5.
  */
  lemma HypothesesAre(s: Snapshot, k: nat)
    requires k < |Hypothesized(s)|
    ensures |Hypothesized(s)| == |Candidates(s.records)| <= 3
    ensures var h, subject := Hypothesized(s)[k], Candidates(s.records)[k];
      var samples := Filter(s.records, (r: Evidence) => r.metric == "oper_state" && r.subject == subject);
      && h.name == "link_down" && h.subject == subject && |h.claims| == 1 && samples != []
      && var c := h.claims[0];
      && c.id == "oper-down::" + subject && c.kind == Sustained && c.subject == subject && c.metric == "oper_state"
      && c.op == Less && c.comparison == Num(0.5) && c.unit == "state" && c.hi == s.asOf && c.polarity
      && (exists r | r in samples :: r.at == c.lo) && (forall r | r in samples :: c.lo <= r.at)
      && |c.evidenceIds| == |samples| && forall i | 0 <= i < |samples| :: c.evidenceIds[i] == samples[i].id
  {
    var subject := Candidates(s.records)[k];
    var isOper := (r: Evidence) => r.metric == "oper_state" && r.subject == subject;
    CandidateSampled(s.records, subject);
    FilterSame(s.records, OperOf(subject), isOper);
    EarliestIsReached(Samples(s.records, subject));
    hide Candidates, Filter, EverDown, Earliest;
  }

  lemma {:induction false} FilterSame(rs: seq<Evidence>, p: Evidence -> bool, q: Evidence -> bool)
    requires forall r :: p(r) == q(r)
    ensures Filter(rs, p) == Filter(rs, q)
  {
    if rs != [] { FilterSame(rs[..|rs| - 1], p, q); }
  }

  // ----- which subjects are considered -----

  /** The index of a subject's first oper-state record. */
  function FirstSeen(records: seq<Evidence>, x: string): (k: nat)
    ensures k <= |records|
    ensures k < |records| ==> OperOf(x)(records[k])
    ensures forall j | 0 <= j < k :: !OperOf(x)(records[j])
  {
    if records == [] then 0 else if OperOf(x)(records[0]) then 0 else 1 + FirstSeen(records[1..], x)
  }

  lemma FirstSeenIs(records: seq<Evidence>, x: string, k: nat)
    requires k < |records| && OperOf(x)(records[k]) && forall j | 0 <= j < k :: !OperOf(x)(records[j])
    ensures FirstSeen(records, x) == k
  {
  }

  ghost predicate Rising(subjects: seq<string>, key: string -> nat) {
    forall i, j | 0 <= i < j < |subjects| :: key(subjects[i]) < key(subjects[j])
  }

  function SeenAt(records: seq<Evidence>): string -> nat { (x: string) => FirstSeen(records, x) }

  lemma NewSubject(records: seq<Evidence>)
    requires records != [] && OperSample(records[|records| - 1])
    requires records[|records| - 1].subject !in Subjects(records[..|records| - 1])
    ensures FirstSeen(records, records[|records| - 1].subject) == |records| - 1
  {
    var n := |records| - 1;
    SubjectsMembers(records[..n], records[n].subject);
    hide Subjects, FirstSeen;
    forall j | 0 <= j < n ensures !OperOf(records[n].subject)(records[j]) { assert records[..n][j] == records[j]; }
    FirstSeenIs(records, records[n].subject, n);
  }

  lemma SeenStable(records: seq<Evidence>, r: Evidence, x: string)
    requires FirstSeen(records, x) < |records|
    ensures FirstSeen(records + [r], x) == FirstSeen(records, x)
  {
    FirstSeenIs(records + [r], x, FirstSeen(records, x));
  }

  lemma RisingAppend(subjects: seq<string>, x: string, key: string -> nat, longer: string -> nat)
    requires Rising(subjects, key) && forall y | y in subjects :: longer(y) == key(y) < longer(x)
    ensures Rising(subjects + [x], longer) && Rising(subjects, longer)
  {
  }

  lemma {:induction false} SubjectsRise(records: seq<Evidence>)
    ensures Rising(Subjects(records), SeenAt(records))
    ensures forall x | x in Subjects(records) :: FirstSeen(records, x) < |records|
  {
    if records != [] {
      var n := |records| - 1;
      var front, r := records[..n], records[n];
      SubjectsRise(front);
      assert records == front + [r];
      SubjectsAppend(front, r);
      hide Subjects, FirstSeen, Rising;
      forall x | x in Subjects(front) ensures FirstSeen(records, x) == FirstSeen(front, x) < n {
        SeenStable(front, r, x);
      }
      if OperSample(r) && r.subject !in Subjects(front) {
        NewSubject(records);
        RisingAppend(Subjects(front), r.subject, SeenAt(front), SeenAt(records));
      } else {
        SameRising(Subjects(front), SeenAt(front), SeenAt(records));
      }
    }
  }

  lemma SameRising(subjects: seq<string>, key: string -> nat, other: string -> nat)
    requires Rising(subjects, key) && forall y | y in subjects :: other(y) == key(y)
    ensures Rising(subjects, other)
  {
  }

  lemma {:induction false} FilterRises(subjects: seq<string>, key: string -> nat, p: string -> bool)
    requires Rising(subjects, key)
    ensures Rising(Filter(subjects, p), key)
  {
    if subjects != [] {
      var n := |subjects| - 1;
      FilterRises(subjects[..n], key, p);
      FilterMembers(subjects[..n], p);
      forall x | x in Filter(subjects[..n], p) ensures key(x) < key(subjects[n]) {
        var k :| 0 <= k < n && subjects[k] == x;
      }
    }
  }

  lemma LeftOutIsLater(all: seq<string>, key: string -> nat, y: string)
    requires Rising(all, key) && y in all && y !in FirstThree(all)
    ensures |FirstThree(all)| == MAX_HYPOTHESES && forall x | x in FirstThree(all) :: key(x) < key(y)
  {
    var b :| 0 <= b < |all| && all[b] == y;
    assert forall i | 0 <= i < |FirstThree(all)| :: FirstThree(all)[i] == all[i];
    assert b >= |FirstThree(all)|;
  }

  /**
    The candidates are the (at most three) subjects ever seen down whose first records come earliest, in that order.
  */
  lemma CandidatesAreFirstSeen(records: seq<Evidence>)
    ensures |Candidates(records)| <= MAX_HYPOTHESES && Rising(Candidates(records), SeenAt(records))
    ensures forall x | x in Candidates(records) :: EverDown(records, x)
    ensures forall y | EverDown(records, y) && y !in Candidates(records) ::
      |Candidates(records)| == MAX_HYPOTHESES && forall x | x in Candidates(records) ::
        SeenAt(records)(x) < SeenAt(records)(y)
  {
    CandidatesRise(records);
    hide Candidates, Subjects, FirstSeen;
    forall x | x in Candidates(records) ensures EverDown(records, x) { CandidateSampled(records, x); }
    forall y | EverDown(records, y) && y !in Candidates(records)
      ensures |Candidates(records)| == MAX_HYPOTHESES && forall x | x in Candidates(records) ::
        SeenAt(records)(x) < SeenAt(records)(y)
    {
      LeftOutSeenLater(records, y);
    }
  }

  lemma CandidatesRise(records: seq<Evidence>)
    ensures |Candidates(records)| <= MAX_HYPOTHESES && Rising(Candidates(records), SeenAt(records))
  {
    SubjectsRise(records);
    FilterRises(Subjects(records), SeenAt(records), WasDown(records));
  }

  lemma LeftOutSeenLater(records: seq<Evidence>, y: string)
    requires EverDown(records, y) && y !in Candidates(records)
    ensures |Candidates(records)| == MAX_HYPOTHESES && forall x | x in Candidates(records) ::
      SeenAt(records)(x) < SeenAt(records)(y)
  {
    SubjectsRise(records);
    FilterRises(Subjects(records), SeenAt(records), WasDown(records));
    SubjectsMembers(records, y);
    FilterMembers(Subjects(records), WasDown(records));
    assert WasDown(records)(y);
    hide Subjects, FirstSeen, Filter;
    LeftOutIsLater(Filter(Subjects(records), WasDown(records)), SeenAt(records), y);
  }
}
