/** The evidence-gated workflow: hypothesize, test every claim, commit or abstain. */
module Diagnosis {
  import opened Sequences
  import opened Claims

  const MAX_HYPOTHESES := 3

  /** A recognized class: the metric, operators and polarity of the claim that entails it, and its plan template. */
  datatype Definition = Definition(metric: string, ops: set<Operator>, polarity: bool, template: string) {
    predicate EntailedBy(c: Claim) { c.metric == metric && c.op in ops && c.polarity == polarity }
  }

  const LINK_DOWN := "link_down"
  const BGP_SESSION_DOWN := "bgp_session_down"
  const OPER_STATE := "oper_state"

  function DefinitionOf(name: string): Option<Definition> {
    if name == LINK_DOWN then Some(Definition(OPER_STATE, {Less, AtMost}, true, "tmpl-restart-interface"))
    else if name == BGP_SESSION_DOWN then Some(Definition("bgp_session_state", {Equal}, true, "tmpl-reset-bgp-session"))
    else None
  }

  datatype Hypothesis = Hypothesis(name: string, subject: string, claims: seq<Claim>)

  datatype Outcome =
    | Undiagnosed(tested: seq<(string, map<string, Verdict>)>)
    | Diagnosed(name: string, subject: string, claims: seq<Claim>, template: string,
      tested: seq<(string, map<string, Verdict>)>)

  /** The verdicts by claim id: a later claim with the same id replaces an earlier one. */
  function Verdicts(claims: seq<Claim>, s: Snapshot): map<string, Verdict> {
    if claims == [] then map[]
    else Verdicts(claims[..|claims| - 1], s)[claims[|claims| - 1].id := Verify(claims[|claims| - 1], s)]
  }

  function Tested(hs: seq<Hypothesis>, s: Snapshot): seq<(string, map<string, Verdict>)> {
    seq(|hs|, i requires 0 <= i < |hs| => (hs[i].name, Verdicts(hs[i].claims, s)))
  }

  /** The three gates: a recognized class with claims, every kept verdict supported, and an entailing claim. */
  predicate Commits(h: Hypothesis, s: Snapshot) {
    && DefinitionOf(h.name).Some? && h.claims != []
    && (forall id | id in Verdicts(h.claims, s) :: Verdicts(h.claims, s)[id] == Supported)
    && exists c | c in h.claims :: DefinitionOf(h.name).value.EntailedBy(c)
  }

  function Considered(hs: seq<Hypothesis>): seq<Hypothesis> {
    if |hs| <= MAX_HYPOTHESES then hs else hs[..MAX_HYPOTHESES]
  }

  /** The first committing hypothesis, or the length when there is none. */
  function FirstCommit(hs: seq<Hypothesis>, s: Snapshot): (k: nat)
    ensures k <= |hs|
    ensures forall i | 0 <= i < k :: !Commits(hs[i], s)
    ensures k < |hs| ==> Commits(hs[k], s)
  {
    if hs == [] then 0 else if Commits(hs[0], s) then 0 else 1 + FirstCommit(hs[1..], s)
  }

  function Decided(all: seq<Hypothesis>, s: Snapshot): Outcome {
    var hs := Considered(all);
    var k := FirstCommit(hs, s);
    if k == |hs| then Undiagnosed(Tested(hs, s))
    else Diagnosed(hs[k].name, hs[k].subject, hs[k].claims, DefinitionOf(hs[k].name).value.template,
      Tested(hs[..k + 1], s))
  }

  method TestClaims(claims: seq<Claim>, s: Snapshot) returns (verdicts: map<string, Verdict>, allSupported: bool)
    ensures verdicts == Verdicts(claims, s)
    ensures allSupported <==> forall id | id in verdicts :: verdicts[id] == Supported
  {
    verdicts := map[];
    for i := 0 to |claims|
      invariant verdicts == Verdicts(claims[..i], s)
    {
      assert claims[..i + 1][..i] == claims[..i];
      verdicts := verdicts[claims[i].id := Verify(claims[i], s)];
    }
    assert claims[..|claims|] == claims;
    allSupported := forall id | id in verdicts :: verdicts[id] == Supported;
  }

  method Diagnose(s: Snapshot, all: seq<Hypothesis>) returns (outcome: Outcome)
    ensures outcome == Decided(all, s)
  {
    var hs := Considered(all);
    var tested: seq<(string, map<string, Verdict>)> := [];
    for i := 0 to |hs|
      invariant tested == Tested(hs[..i], s)
      invariant forall k | 0 <= k < i :: !Commits(hs[k], s)
    {
      var h := hs[i];
      var verdicts, allSupported := TestClaims(h.claims, s);
      tested := tested + [(h.name, verdicts)];
      assert tested == Tested(hs[..i + 1], s);
      var definition := DefinitionOf(h.name);
      if definition.None? || h.claims == [] { continue; }
      if !allSupported { continue; }
      if !exists c | c in h.claims :: definition.value.EntailedBy(c) { continue; }
      assert Commits(h, s);
      return Diagnosed(h.name, h.subject, h.claims, definition.value.template, tested);
    }
    assert hs[..|hs|] == hs;
    outcome := Undiagnosed(tested);
  }

  // ----- a commitment is earned -----

  ghost predicate DistinctIds(claims: seq<Claim>) {
    forall i, j | 0 <= i < j < |claims| :: claims[i].id != claims[j].id
  }

  /** No later claim carries the same id. */
  ghost predicate Last(claims: seq<Claim>, i: nat)
    requires i < |claims|
  {
    forall j | i < j < |claims| :: claims[j].id != claims[i].id
  }

  lemma {:induction false} VerdictsKept(claims: seq<Claim>, s: Snapshot, i: nat)
    requires i < |claims| && Last(claims, i)
    ensures claims[i].id in Verdicts(claims, s) && Verdicts(claims, s)[claims[i].id] == Verify(claims[i], s)
  {
    if i < |claims| - 1 { VerdictsKept(claims[..|claims| - 1], s, i); }
  }

  lemma {:induction false} VerdictsFrom(claims: seq<Claim>, s: Snapshot, id: string)
    requires id in Verdicts(claims, s)
    ensures exists i: nat ::
      i < |claims| && Last(claims, i) && claims[i].id == id && Verdicts(claims, s)[id] == Verify(claims[i], s)
  {
    hide Verify;
    var n := |claims| - 1;
    if id == claims[n].id {
      assert Last(claims, n);
    } else {
      VerdictsFrom(claims[..n], s, id);
      var i: nat :| i < n && Last(claims[..n], i) && claims[i].id == id
        && Verdicts(claims[..n], s)[id] == Verify(claims[i], s);
      assert Last(claims, i);
    }
  }

  /**
    What is really tested: the last claim of each id. A hypothesis commits iff those are supported and some claim
    entails its class.
  */
  lemma CommitsIffLastSupported(h: Hypothesis, s: Snapshot)
    ensures Commits(h, s) <==>
      && DefinitionOf(h.name).Some?
      && (forall i: nat | i < |h.claims| && Last(h.claims, i) :: Verify(h.claims[i], s) == Supported)
      && exists c | c in h.claims :: DefinitionOf(h.name).value.EntailedBy(c)
  {
    forall i: nat | i < |h.claims| && Last(h.claims, i)
      ensures h.claims[i].id in Verdicts(h.claims, s) && Verdicts(h.claims, s)[h.claims[i].id] == Verify(h.claims[i], s)
    {
      VerdictsKept(h.claims, s, i);
    }
    if forall i: nat | i < |h.claims| && Last(h.claims, i) :: Verify(h.claims[i], s) == Supported {
      forall id | id in Verdicts(h.claims, s) ensures Verdicts(h.claims, s)[id] == Supported {
        VerdictsFrom(h.claims, s, id);
      }
    }
  }

  /** The claim that entails link_down or bgp_session_down. */
  ghost predicate Entails(name: string, c: Claim) {
    || (name == "link_down" && c.metric == "oper_state" && (c.op == Less || c.op == AtMost) && c.polarity)
    || (name == "bgp_session_down" && c.metric == "bgp_session_state" && c.op == Equal && c.polarity)
  }

  /** The two recognized classes, and what each needs and leads to. */
  lemma ClassesAre(h: Hypothesis, s: Snapshot)
    ensures Commits(h, s) <==>
      && (forall i: nat | i < |h.claims| && Last(h.claims, i) :: Verify(h.claims[i], s) == Supported)
      && exists c | c in h.claims :: Entails(h.name, c)
    ensures Commits(h, s) ==>
      DefinitionOf(h.name).value.template
      == if h.name == "link_down" then "tmpl-restart-interface" else "tmpl-reset-bgp-session"
  {
    CommitsIffLastSupported(h, s);
    hide Commits;
    forall c ensures Entails(h.name, c) <==> DefinitionOf(h.name).Some? && DefinitionOf(h.name).value.EntailedBy(c) {}
    assert "link_down"[0] != "bgp_session_down"[0];
  }

  lemma ConsideredAre(all: seq<Hypothesis>)
    ensures |Considered(all)| == (if |all| <= 3 then |all| else 3)
    ensures forall i | 0 <= i < |Considered(all)| :: Considered(all)[i] == all[i]
  {
  }

  lemma TestedNames(hs: seq<Hypothesis>, s: Snapshot)
    ensures |Tested(hs, s)| == |hs| && forall i | 0 <= i < |hs| :: Tested(hs, s)[i].0 == hs[i].name
  {
    hide Verdicts;
  }

  /** The outcome: the first of the first three hypotheses that commits, with its own claims, or none. */
  lemma DecisionIs(all: seq<Hypothesis>, s: Snapshot)
    ensures var o := Decided(all, s);
      && (o.Diagnosed? <==> exists k: nat | k < 3 && k < |all| :: Commits(all[k], s))
      && (o.Diagnosed? ==> exists k: nat | k < 3 && k < |all| ::
            && Commits(all[k], s) && (forall i | 0 <= i < k :: !Commits(all[i], s))
            && o.name == all[k].name && o.subject == all[k].subject && o.claims == all[k].claims
            && o.template == (if all[k].name == "link_down" then "tmpl-restart-interface" else "tmpl-reset-bgp-session")
            && |o.tested| == k + 1 && forall i | 0 <= i <= k :: o.tested[i].0 == all[i].name)
      && (o.Undiagnosed? ==>
            && |o.tested| == (if |all| <= 3 then |all| else 3)
            && forall i | 0 <= i < |o.tested| :: o.tested[i].0 == all[i].name)
  {
    hide Commits, Tested, Considered, DefinitionOf, Entails;
    ConsideredAre(all);
    var hs := Considered(all);
    var k := FirstCommit(hs, s);
    if k < |hs| {
      TemplateIs(hs[k], s);
      TestedNames(hs[..k + 1], s);
      assert Commits(all[k], s);
    } else {
      TestedNames(hs, s);
      assert forall i: nat | i < 3 && i < |all| :: hs[i] == all[i];
    }
  }

  lemma TemplateIs(h: Hypothesis, s: Snapshot)
    requires Commits(h, s)
    ensures DefinitionOf(h.name).Some? && DefinitionOf(h.name).value.template
      == if h.name == "link_down" then "tmpl-restart-interface" else "tmpl-reset-bgp-session"
  {
    ClassesAre(h, s);
    hide Verdicts;
  }

  /**
    With distinct claim ids, a hypothesis commits exactly when every claim is supported and one of them entails its
    class.
  */
  lemma CommitsIff(h: Hypothesis, s: Snapshot)
    requires DistinctIds(h.claims)
    ensures Commits(h, s) <==>
      && DefinitionOf(h.name).Some?
      && (forall c | c in h.claims :: Verify(c, s) == Supported)
      && exists c | c in h.claims :: DefinitionOf(h.name).value.EntailedBy(c)
  {
    CommitsIffLastSupported(h, s);
    assert forall i: nat | i < |h.claims| :: Last(h.claims, i);
    assert forall i | 0 <= i < |h.claims| :: h.claims[i] in h.claims;
  }

  /**
    For any hypothesizer whose claim ids are distinct within each hypothesis: a diagnosis is one of its first three
    hypotheses, all its claims are supported, one of them entails the class, and the plan template is that class's own.
  */
  lemma CommitmentIsEarned(all: seq<Hypothesis>, s: Snapshot)
    requires forall h | h in all :: DistinctIds(h.claims)
    ensures var o := Decided(all, s);
      o.Diagnosed? ==>
        && (exists i: nat | i < MAX_HYPOTHESES && i < |all| :: all[i] == Hypothesis(o.name, o.subject, o.claims))
        && (forall c | c in o.claims :: Verify(c, s) == Supported)
        && DefinitionOf(o.name).Some? && o.template == DefinitionOf(o.name).value.template
        && (exists c | c in o.claims :: DefinitionOf(o.name).value.EntailedBy(c) && Verify(c, s) == Supported)
  {
    var hs := Considered(all);
    var k := FirstCommit(hs, s);
    if k < |hs| {
      assert hs[k] == all[k] && all[k] in all;
      CommitsIff(hs[k], s);
    }
  }

  /**
    An abstention is honest too, whatever the hypothesizer: each of the first three hypotheses has an unrecognized
    class, an unsupported claim, or no claim that entails its class.
  */
  lemma AbstentionIsEarned(all: seq<Hypothesis>, s: Snapshot, i: nat)
    requires i < |all| && i < MAX_HYPOTHESES && Decided(all, s).Undiagnosed?
    ensures DefinitionOf(all[i].name).None? || (exists c | c in all[i].claims :: Verify(c, s) != Supported)
      || forall c | c in all[i].claims :: !DefinitionOf(all[i].name).value.EntailedBy(c)
  {
    assert Considered(all)[i] == all[i];
    assert FirstCommit(Considered(all), s) == |Considered(all)|;
    CommitsIffLastSupported(all[i], s);
  }

  /**
    Distinct ids are needed: verdicts are kept per id, so a second claim with the same id hides an unsupported first
    one.
  */
  lemma RepeatedIdHidesAClaim()
    ensures exists h: Hypothesis, s: Snapshot ::
      Commits(h, s) && exists c :: c in h.claims && Verify(c, s) == Insufficient
  {
    var s := Snapshot(1.0, [Evidence("e", "if", OPER_STATE, Num(0.0), "state", 0.0, true)]);
    var good := Claim("c", Sustained, "if", OPER_STATE, Less, Num(0.5), "state", 0.0, 1.0, true, ["e"]);
    var bad := good.(evidenceIds := []);
    var h := Hypothesis(LINK_DOWN, "if", [bad, good]);
    assert ["e"] == [] + ["e"];
    FlatMapAppend([], "e", Lookup(good, s.records));
    assert Matched(good, s.records) == [s.records[0]];
    assert Verify(good, s) == Supported;
    assert [bad, good][..1] == [bad] && [bad][..0] == [];
    assert Verdicts([bad], s) == Verdicts([], s)["c" := Verify(bad, s)];
    assert Verdicts([bad, good], s) == Verdicts([bad], s)["c" := Supported];
    assert forall id | id in Verdicts([bad, good], s) :: id == "c";
    assert good in h.claims && bad in h.claims && DefinitionOf(LINK_DOWN).value.EntailedBy(good);
    assert Commits(h, s) && Verify(bad, s) == Insufficient;
  }
}
