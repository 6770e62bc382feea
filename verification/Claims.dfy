/** Typed claims about an immutable evidence snapshot, and the verifier that judges them. */
module Claims {
  import opened Sequences

  datatype Verdict = Supported | Contradicted | Insufficient

  datatype PredicateType = Sustained | AnySample

  datatype Value = Num(x: real) | Text(s: string)

  datatype Evidence = Evidence(id: string, subject: string, metric: string, value: Value, unit: string, at: real,
    trusted: bool)

  datatype Snapshot = Snapshot(asOf: real, records: seq<Evidence>)

  /** The five operators, and any other operator text. */
  datatype Operator = Greater | AtLeast | Less | AtMost | Equal | Other(text: string)

  datatype Claim = Claim(id: string, kind: PredicateType, subject: string, metric: string, op: Operator,
    comparison: Value, unit: string, lo: real, hi: real, polarity: bool, evidenceIds: seq<string>)

  /** by_id: the first record with that id. */
  function ById(records: seq<Evidence>, id: string): (r: Option<Evidence>)
    ensures r.Some? ==> r.value in records && r.value.id == id
    ensures r.None? ==> forall e | e in records :: e.id != id
  {
    if records == [] then None else if records[0].id == id then Some(records[0]) else ById(records[1..], id)
  }

  function Compare(op: Operator, a: real, b: real): bool {
    match op
    case Greater => a > b
    case AtLeast => a >= b
    case Less => a < b
    case AtMost => a <= b
    case Equal => a == b
    case Other(_) => false
  }

  /** One sample against the comparison; None when an ordering operator meets text. */
  function Satisfies(op: Operator, value: Value, comparison: Value): Option<bool> {
    if op == Equal then Some(value == comparison)
    else if value.Num? && comparison.Num? then Some(Compare(op, value.x, comparison.x))
    else None
  }

  predicate Relevant(c: Claim, r: Evidence) {
    r.subject == c.subject && r.metric == c.metric && r.unit == c.unit && c.lo <= r.at <= c.hi
  }

  /** The referenced records that match the claim, in reference order. */
  function Lookup(c: Claim, records: seq<Evidence>): string -> seq<Evidence> {
    (id: string) => var r := ById(records, id); if r.Some? && Relevant(c, r.value) then [r.value] else []
  }

  function Matched(c: Claim, records: seq<Evidence>): seq<Evidence> { FlatMap(c.evidenceIds, Lookup(c, records)) }

  predicate IllTyped(c: Claim, r: Evidence) { Satisfies(c.op, r.value, c.comparison).None? }

  predicate Holds(c: Claim, r: Evidence) { Satisfies(c.op, r.value, c.comparison) == Some(true) }

  predicate Judged(c: Claim, matched: seq<Evidence>) {
    if c.kind == Sustained then forall r | r in matched :: Holds(c, r) else exists r | r in matched :: Holds(c, r)
  }

  function Verify(c: Claim, s: Snapshot): Verdict {
    if c.op.Other? then Insufficient
    else
      var matched := Matched(c, s.records);
      if matched == [] || exists r | r in matched :: IllTyped(c, r) then Insufficient
      else if Judged(c, matched) == c.polarity then Supported else Contradicted
  }

  // ----- what a verdict means -----

  /** r is the record some evidence id of the claim resolves to, and it matches the claim. */
  predicate Referenced(c: Claim, records: seq<Evidence>, r: Evidence) {
    r.id in c.evidenceIds && ById(records, r.id) == Some(r) && Relevant(c, r)
  }

  lemma MatchedIsReferenced(c: Claim, records: seq<Evidence>, r: Evidence)
    ensures r in Matched(c, records) <==> Referenced(c, records, r)
  {
    FlatMapMember(c.evidenceIds, Lookup(c, records), r);
    if Referenced(c, records, r) { assert r in Lookup(c, records)(r.id); }
  }

  /**
    A supported positive claim is backed by evidence: some referenced record that matches in subject, metric, unit and
    window satisfies it, and for a sustained claim every one of them does, so no failing sample can be left out among
    those cited.
  */
  lemma SupportIsBacked(c: Claim, s: Snapshot)
    requires Verify(c, s) == Supported && c.polarity
    ensures exists r :: Referenced(c, s.records, r) && Holds(c, r)
    ensures c.kind == Sustained ==> forall r | Referenced(c, s.records, r) :: Holds(c, r)
  {
    var matched := Matched(c, s.records);
    forall r ensures r in matched <==> Referenced(c, s.records, r) { MatchedIsReferenced(c, s.records, r); }
    if c.kind == Sustained { assert matched[0] in matched && Holds(c, matched[0]); }
  }

  /** Citing more evidence never turns a contradicted sustained claim into a supported one. */
  lemma CherryPickingFails(c: Claim, s: Snapshot, more: seq<string>)
    requires c.kind == Sustained && c.polarity && Verify(c, s) == Contradicted
    ensures Verify(c.(evidenceIds := c.evidenceIds + more), s) != Supported
  {
    var longer := c.(evidenceIds := c.evidenceIds + more);
    var r :| r in Matched(c, s.records) && !Holds(c, r);
    MatchedIsReferenced(c, s.records, r);
    MatchedIsReferenced(longer, s.records, r);
    assert !Holds(longer, r);
  }

  /** The operator that says the opposite of an ordering. */
  function Opposite(op: Operator): Operator {
    match op
    case Greater => AtMost
    case AtLeast => Less
    case Less => AtLeast
    case AtMost => Greater
    case Equal => Equal
    case Other(t) => Other(t)
  }

  function Dual(c: Claim): Claim {
    c.(kind := if c.kind == Sustained then AnySample else Sustained, op := Opposite(c.op), polarity := !c.polarity)
  }

  /** "Always below" and "not ever at or above" get the same verdict, for every ordering claim. */
  lemma DualClaimsAgree(c: Claim, s: Snapshot)
    requires c.op != Equal
    ensures Verify(c, s) == Verify(Dual(c), s)
  {
    var d := Dual(c);
    SameLookup(c, d, s.records);
    var matched := Matched(c, s.records);
    assert Matched(d, s.records) == matched;
    forall r
      ensures IllTyped(c, r) == IllTyped(d, r) && (!c.op.Other? && !IllTyped(c, r) ==> Holds(c, r) == !Holds(d, r)) {}
    if !c.op.Other? && matched != [] && !(exists r | r in matched :: IllTyped(c, r)) {
      assert !(exists r | r in matched :: IllTyped(d, r));
      assert Judged(c, matched) == !Judged(d, matched);
    }
  }

  lemma {:induction false} SameLookupOver(ids: seq<string>, f: string -> seq<Evidence>, g: string -> seq<Evidence>)
    requires forall id :: f(id) == g(id)
    ensures FlatMap(ids, f) == FlatMap(ids, g)
  {
    if ids != [] { SameLookupOver(ids[..|ids| - 1], f, g); }
  }

  lemma SameLookup(c: Claim, d: Claim, records: seq<Evidence>)
    requires c.subject == d.subject && c.metric == d.metric && c.unit == d.unit && c.lo == d.lo && c.hi == d.hi
    requires c.evidenceIds == d.evidenceIds
    ensures Matched(c, records) == Matched(d, records)
  {
    forall id ensures Lookup(c, records)(id) == Lookup(d, records)(id) {}
    SameLookupOver(c.evidenceIds, Lookup(c, records), Lookup(d, records));
  }

  /** Flipping a claim's polarity swaps supported and contradicted, and leaves insufficient alone. */
  lemma NegationFlips(c: Claim, s: Snapshot)
    ensures Verify(c, s) == Insufficient <==> Verify(c.(polarity := !c.polarity), s) == Insufficient
    ensures Verify(c, s) == Supported <==> Verify(c.(polarity := !c.polarity), s) == Contradicted
  {
    var d := c.(polarity := !c.polarity);
    SameLookup(c, d, s.records);
    var matched := Matched(c, s.records);
    assert forall r :: IllTyped(c, r) == IllTyped(d, r) && Holds(c, r) == Holds(d, r);
    if Judged(c, matched) != Judged(d, matched) { assert false; }
  }
}
