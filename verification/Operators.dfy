/** What each operator and each kind of claim asks of the cited samples, written out. */
module Operators {
  import opened Sequences
  import opened Claims

  /** Record k is the first with its id. */
  ghost predicate First(records: seq<Evidence>, k: nat) {
    k < |records| && forall j | 0 <= j < k :: records[j].id != records[k].id
  }

  /**
    r is the first record with an id that the claim cites, and its subject, metric and unit are the claim's and its time
    lies in the claim's window, both ends included.
  */
  ghost predicate Cites(c: Claim, s: Snapshot, r: Evidence) {
    && r.id in c.evidenceIds
    && (exists k: nat :: First(s.records, k) && s.records[k] == r)
    && r.subject == c.subject && r.metric == c.metric && r.unit == c.unit
    && c.lo <= r.at && r.at <= c.hi
  }

  lemma FirstOfRest(records: seq<Evidence>, k: nat)
    requires k + 1 < |records|
    ensures First(records, k + 1) <==> First(records[1..], k) && records[0].id != records[k + 1].id
  {
    if First(records, k + 1) {
      forall j | 0 <= j < k ensures records[1..][j].id != records[1..][k].id {
        assert records[j + 1].id != records[k + 1].id;
      }
    }
    if First(records[1..], k) && records[0].id != records[k + 1].id {
      forall j | 0 <= j < k + 1 ensures records[j].id != records[k + 1].id {
        if j > 0 { assert records[1..][j - 1].id != records[1..][k].id; }
      }
    }
  }

  lemma {:induction false} FirstById(records: seq<Evidence>, r: Evidence)
    ensures ById(records, r.id) == Some(r) <==> exists k: nat :: First(records, k) && records[k] == r
  {
    if records != [] {
      if records[0].id == r.id {
        assert First(records, 0);
        forall k: nat | First(records, k) && records[k] == r ensures k == 0 {}
      } else {
        FirstById(records[1..], r);
        hide First;
        if k: nat :| First(records[1..], k) && records[1..][k] == r {
          FirstOfRest(records, k);
          assert First(records, k + 1) && records[k + 1] == r;
        }
        if k: nat :| First(records, k) && records[k] == r {
          FirstOfRest(records, k - 1);
          assert First(records[1..], k - 1) && records[1..][k - 1] == r;
        }
      }
    }
  }

  lemma MatchedIsCited(c: Claim, s: Snapshot)
    ensures forall r :: r in Matched(c, s.records) <==> Cites(c, s, r)
  {
    forall r ensures r in Matched(c, s.records) <==> Cites(c, s, r) {
      MatchedIsReferenced(c, s.records, r);
      FirstById(s.records, r);
    }
    hide Matched;
  }

  /** What a claim says of one numeric sample: every cited one of a sustained claim, some one of an any-sample claim. */
  ghost predicate Says(c: Claim, s: Snapshot, holds: real -> bool) {
    if c.kind == Sustained then forall r | Cites(c, s, r) :: r.value.Num? ==> holds(r.value.x)
    else exists r :: Cites(c, s, r) && r.value.Num? && holds(r.value.x)
  }

  /** Something is cited, and every cited sample is numeric. */
  ghost predicate Decidable(c: Claim, s: Snapshot) {
    (exists r :: Cites(c, s, r)) && forall r | Cites(c, s, r) :: r.value.Num?
  }

  /**
    The verdict on a claim whose operator means the given test: insufficient unless decidable, and otherwise supported
    exactly when what the claim says is as true as its polarity asks.
  */
  ghost predicate Tests(c: Claim, s: Snapshot, holds: real -> bool) {
    && (Verify(c, s) == Insufficient <==> !Decidable(c, s))
    && (Verify(c, s) == Supported <==> Decidable(c, s) && (Says(c, s, holds) <==> c.polarity))
  }

  lemma OrderingIs(c: Claim, s: Snapshot, b: real, holds: real -> bool)
    requires !c.op.Other? && c.op != Equal && c.comparison == Num(b)
    requires forall r: Evidence | r.value.Num? :: Holds(c, r) <==> holds(r.value.x)
    ensures Tests(c, s, holds)
  {
    var matched := Matched(c, s.records);
    MatchedIsCited(c, s);
    hide Matched, Cites;
    assert forall r :: IllTyped(c, r) <==> !r.value.Num?;
    if matched != [] { assert matched[0] in matched; }
  }

  /** "value > b" */
  lemma GreaterIs(c: Claim, s: Snapshot, b: real)
    requires c.op == Greater && c.comparison == Num(b)
    ensures Tests(c, s, x => x > b)
  {
    OrderingIs(c, s, b, x => x > b);
  }

  /** "value >= b" */
  lemma AtLeastIs(c: Claim, s: Snapshot, b: real)
    requires c.op == AtLeast && c.comparison == Num(b)
    ensures Tests(c, s, x => x >= b)
  {
    OrderingIs(c, s, b, x => x >= b);
  }

  /** "value < b" */
  lemma LessIs(c: Claim, s: Snapshot, b: real)
    requires c.op == Less && c.comparison == Num(b)
    ensures Tests(c, s, x => x < b)
  {
    OrderingIs(c, s, b, x => x < b);
  }

  /** "value <= b" */
  lemma AtMostIs(c: Claim, s: Snapshot, b: real)
    requires c.op == AtMost && c.comparison == Num(b)
    ensures Tests(c, s, x => x <= b)
  {
    OrderingIs(c, s, b, x => x <= b);
  }

  /** "value == v", numbers and texts alike: nothing cited is ill-typed. */
  lemma EqualIs(c: Claim, s: Snapshot)
    requires c.op == Equal
    ensures Verify(c, s) == Insufficient <==> forall r :: !Cites(c, s, r)
    ensures var said := if c.kind == Sustained then forall r | Cites(c, s, r) :: r.value == c.comparison
                        else exists r :: Cites(c, s, r) && r.value == c.comparison;
      Verify(c, s) == Supported <==> (exists r :: Cites(c, s, r)) && said == c.polarity
  {
    var matched := Matched(c, s.records);
    MatchedIsCited(c, s);
    hide Matched, Cites;
    assert forall r: Evidence :: !IllTyped(c, r) && (Holds(c, r) <==> r.value == c.comparison);
    if matched != [] { assert matched[0] in matched; }
  }

  /** An ordering against a text and an unknown operator never decide anything. */
  lemma NothingElseDecides(c: Claim, s: Snapshot)
    requires c.op.Other? || (c.op != Equal && c.comparison.Text?)
    ensures Verify(c, s) == Insufficient
  {
    var matched := Matched(c, s.records);
    if matched != [] && !c.op.Other? { assert matched[0] in matched && IllTyped(c, matched[0]); }
  }
}
