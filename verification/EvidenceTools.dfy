/** The envelope every evidence tool runs through: as-of bound, result cap, budget, trace and trust tag. */
module EvidenceTools {
  import opened Sequences
  import opened Claims

  datatype Source = Telemetry | Bgp | Log | Runbook | Topology | Ranking | Summary

  datatype Record = Record(subject: string, metric: string, value: Value, unit: string, at: real, source: Source)

  /** sourceName and showTime render the parts of an evidence id. */
  datatype Scope = Scope(asOf: real, limit: int, maxCalls: int, maxRows: int, sourceName: Source -> string,
    showTime: real -> string)

  datatype Spent = Spent(calls: int, rows: int)

  datatype Call = Call(tool: string, records: seq<Record>)

  function Until(asOf: real): Record -> bool { (r: Record) => r.at <= asOf }

  /** A slice [:limit]: a negative limit drops from the end. */
  function Slice<T>(s: seq<T>, limit: int): (r: seq<T>)
    ensures r <= s
  {
    if limit >= |s| then s else if limit >= 0 then s[..limit] else if |s| + limit >= 0 then s[..|s| + limit] else []
  }

  function Kept(sc: Scope, records: seq<Record>): seq<Record> { Slice(Filter(records, Until(sc.asOf)), sc.limit) }

  predicate Trusted(source: Source) { source != Log && source != Runbook }

  function Tagged(sc: Scope, r: Record): Evidence {
    Evidence(sc.sourceName(r.source) + ":" + r.subject + ":" + r.metric + ":" + sc.showTime(r.at),
             r.subject, r.metric, r.value, r.unit, r.at, Trusted(r.source))
  }

  function TaggedAll(sc: Scope, kept: seq<Record>): seq<Evidence> {
    seq(|kept|, i requires 0 <= i < |kept| => Tagged(sc, kept[i]))
  }

  predicate Within(sc: Scope, b: Spent) { b.calls <= sc.maxCalls && b.rows <= sc.maxRows }

  class ToolContext {
    const scope: Scope
    var calls: int
    var rows: int
    var trace: seq<(string, nat)>

    constructor (scope: Scope)
      ensures this.scope == scope && Budget() == Spent(0, 0) && trace == []
    {
      this.scope := scope;
      calls, rows, trace := 0, 0, [];
    }

    function Budget(): Spent
      reads this
    {
      Spent(calls, rows)
    }

    /** False means BudgetExhausted was raised; the spending stays recorded either way. */
    method Charge(n: nat) returns (ok: bool)
      modifies `calls, `rows
      ensures Budget() == Spent(old(calls) + 1, old(rows) + n)
      ensures ok == Within(scope, Budget())
    {
      calls := calls + 1;
      rows := rows + n;
      if calls > scope.maxCalls { return false; }
      if rows > scope.maxRows { return false; }
      ok := true;
    }

    method Emit(call: Call) returns (evidence: Option<seq<Evidence>>)
      modifies this
      ensures (State(), evidence) == Emitted(scope, old(State()), call)
    {
      var kept := Slice(Filter(call.records, Until(scope.asOf)), scope.limit);
      var ok := Charge(|kept|);
      if !ok { return None; }
      trace := trace + [(call.tool, |kept|)];
      evidence := Some(TaggedAll(scope, kept));
    }

    function State(): (Spent, seq<(string, nat)>)
      reads this
    {
      (Budget(), trace)
    }

    method Collect(all: seq<Call>) returns (results: seq<Option<seq<Evidence>>>)
      modifies this
      ensures (State(), results) == Collected(scope, old(State()), all)
    {
      results := [];
      for i := 0 to |all|
        invariant (State(), results) == Collected(scope, old(State()), all[..i])
      {
        assert all[..i + 1][..i] == all[..i];
        var r := Emit(all[i]);
        results := results + [r];
      }
      assert all[..|all|] == all;
    }
  }

  /** One tool call: the new budget and trace, and the evidence unless the budget is exhausted. */
  function Emitted(sc: Scope, st: (Spent, seq<(string, nat)>), call: Call): ((Spent, seq<(string, nat)>),
      Option<seq<Evidence>>) {
    var kept := Kept(sc, call.records);
    var b := Spent(st.0.calls + 1, st.0.rows + |kept|);
    if Within(sc, b) then ((b, st.1 + [(call.tool, |kept|)]), Some(TaggedAll(sc, kept))) else ((b, st.1), None)
  }

  function Collected(sc: Scope, st: (Spent, seq<(string, nat)>),
      all: seq<Call>): (r: ((Spent, seq<(string, nat)>), seq<Option<seq<Evidence>>>))
    ensures |r.1| == |all|
  {
    if all == [] then (st, [])
    else
      var (mid, results) := Collected(sc, st, all[..|all| - 1]);
      var (last, r) := Emitted(sc, mid, all[|all| - 1]);
      (last, results + [r])
  }

  // ----- the envelope over a whole collection -----

  /** The rows the first n calls would yield. */
  function RowsOf(sc: Scope, all: seq<Call>, n: nat): nat
    requires n <= |all|
  {
    if n == 0 then 0 else RowsOf(sc, all, n - 1) + |Kept(sc, all[n - 1].records)|
  }

  lemma {:induction false} RowsOfPrefix(sc: Scope, all: seq<Call>, n: nat, m: nat)
    requires n <= m <= |all|
    ensures RowsOf(sc, all[..m], n) == RowsOf(sc, all, n) <= RowsOf(sc, all, m)
    decreases m, n
  {
    if n > 0 { RowsOfPrefix(sc, all, n - 1, m); }
    if m > n { RowsOfPrefix(sc, all, n, m - 1); }
  }

  const NOTHING := (Spent(0, 0), [])

  /** The calls that fit the budget, counted from the first. */
  ghost predicate Fits(sc: Scope, all: seq<Call>, i: nat)
    requires i < |all|
  {
    i + 1 <= sc.maxCalls && RowsOf(sc, all, i + 1) <= sc.maxRows
  }

  lemma {:induction false} SpentIs(sc: Scope, all: seq<Call>)
    ensures Collected(sc, NOTHING, all).0.0 == Spent(|all|, RowsOf(sc, all, |all|))
  {
    if all != [] {
      var n := |all| - 1;
      SpentIs(sc, all[..n]);
      RowsOfPrefix(sc, all, n, n);
    }
  }

  /**
    Call i of a collection yields evidence exactly when i + 1 calls and all rows asked for so far, refused calls
    included, are within budget.
  */
  lemma {:induction false} CallSucceedsIff(sc: Scope, all: seq<Call>, i: nat)
    requires i < |all|
    ensures Collected(sc, NOTHING, all).1[i]
      == if Fits(sc, all, i) then Some(TaggedAll(sc, Kept(sc, all[i].records))) else None
  {
    var n := |all| - 1;
    if i < n {
      CallSucceedsIff(sc, all[..n], i);
      RowsOfPrefix(sc, all, i + 1, n);
    } else {
      SpentIs(sc, all[..n]);
      RowsOfPrefix(sc, all, n, n);
    }
  }

  /** Once the budget is exhausted it stays so: what succeeds is a prefix of the calls. */
  lemma ExhaustedStaysExhausted(sc: Scope, all: seq<Call>, i: nat, j: nat)
    requires i < j < |all| && Collected(sc, NOTHING, all).1[i].None?
    ensures Collected(sc, NOTHING, all).1[j].None?
  {
    CallSucceedsIff(sc, all, i);
    CallSucceedsIff(sc, all, j);
    RowsOfPrefix(sc, all, i + 1, j + 1);
  }

  function Delivered(results: seq<Option<seq<Evidence>>>): (int, int) {
    if results == [] then (0, 0)
    else
      var (calls, rows) := Delivered(results[..|results| - 1]);
      match results[|results| - 1]
      case None => (calls, rows)
      case Some(evidence) => (calls + 1, rows + |evidence|)
  }

  lemma {:induction false} DeliveredPrefix(sc: Scope, all: seq<Call>, n: nat)
    requires n <= |all| && 0 <= sc.maxCalls && 0 <= sc.maxRows
    ensures var d := Delivered(Collected(sc, NOTHING, all).1[..n]);
      && d.0 <= n && d.1 <= RowsOf(sc, all, n) && d.0 <= sc.maxCalls && d.1 <= sc.maxRows
  {
    if n > 0 {
      CallSucceedsIff(sc, all, n - 1);
      DeliveredPrefix(sc, all, n - 1);
      var results := Collected(sc, NOTHING, all).1;
      assert results[..n][..n - 1] == results[..n - 1];
    }
  }

  /**
    Over any collection the calls answered and the rows handed out never exceed the budget, and the trace accounts for
    all of them.
  */
  lemma BudgetIsKept(sc: Scope, all: seq<Call>)
    requires 0 <= sc.maxCalls && 0 <= sc.maxRows
    ensures var (st, results) := Collected(sc, NOTHING, all);
      |st.1| == Delivered(results).0 <= sc.maxCalls && Accounted(st.1) == Delivered(results).1 <= sc.maxRows
  {
    DeliveredPrefix(sc, all, |all|);
    TraceIsExact(sc, all);
    DeliveredIsTraced(all, Collected(sc, NOTHING, all).1);
    var results := Collected(sc, NOTHING, all).1;
    assert results[..|all|] == results;
  }

  /** One entry per answered call: its tool and how many rows it handed out. */
  function TraceOf(all: seq<Call>, results: seq<Option<seq<Evidence>>>): seq<(string, nat)>
    requires |all| == |results|
  {
    if all == [] then []
    else
      var n := |all| - 1;
      TraceOf(all[..n], results[..n]) + if results[n].Some? then [(all[n].tool, |results[n].value|)] else []
  }

  /** The trace records exactly the answered calls, in order; a refused call leaves no entry. */
  lemma {:induction false} TraceIsExact(sc: Scope, all: seq<Call>)
    ensures Collected(sc, NOTHING, all).0.1 == TraceOf(all, Collected(sc, NOTHING, all).1)
  {
    if all != [] {
      var n := |all| - 1;
      TraceIsExact(sc, all[..n]);
      assert Collected(sc, NOTHING, all).1[..n] == Collected(sc, NOTHING, all[..n]).1;
    }
  }

  /** Rows from the future change nothing: the evidence is the same as if they did not exist. */
  lemma FutureIsInvisible(sc: Scope, st: (Spent, seq<(string, nat)>), call: Call)
    ensures Emitted(sc, st, call) == Emitted(sc, st, call.(records := Filter(call.records, Until(sc.asOf))))
  {
    hide Filter, TaggedAll;
    FilterTwice(call.records, Until(sc.asOf));
  }

  /**
    Whatever is handed out is an in-time record with its trust tag; the count is capped by the limit iff the limit is
    not negative.
  */
  lemma EvidenceIsBounded(sc: Scope, st: (Spent, seq<(string, nat)>), call: Call)
    ensures var r := Emitted(sc, st, call).1;
      r.Some? ==>
        && (|r.value| <= sc.limit <==> sc.limit >= 0)
        && forall e | e in r.value :: e.at <= sc.asOf && exists x | x in call.records :: e == Tagged(sc, x)
  {
    var kept := Kept(sc, call.records);
    FilterMembers(call.records, Until(sc.asOf));
    forall e | e in TaggedAll(sc, kept) ensures e.at <= sc.asOf && exists x | x in call.records :: e == Tagged(sc, x) {
      var k :| 0 <= k < |kept| && e == Tagged(sc, kept[k]);
      assert kept[k] == Filter(call.records, Until(sc.asOf))[k];
      assert Until(sc.asOf)(kept[k]) && kept[k] in call.records;
    }
  }

  lemma {:induction false} FilterSame(rs: seq<Record>, p: Record -> bool, q: Record -> bool)
    requires forall r :: p(r) == q(r)
    ensures Filter(rs, p) == Filter(rs, q)
  {
    if rs != [] { FilterSame(rs[..|rs| - 1], p, q); }
  }

  /** How many of n records a limit lets through: a negative one drops that many from the end. */
  function Let(n: nat, limit: int): nat {
    if limit < 0 then (if n < -limit then 0 else n + limit) else if n < limit then n else limit
  }

  /**
    What an answered call hands out: its records up to the as-of time, in order and as many as the limit lets through,
    each under its own id and trusted unless it comes from a log or a runbook.
  */
  lemma EvidenceIs(sc: Scope, st: (Spent, seq<(string, nat)>), call: Call, i: nat)
    ensures var inTime := Filter(call.records, (r: Record) => r.at <= sc.asOf);
      var n, (st', r) := Let(|inTime|, sc.limit), Emitted(sc, st, call);
      && (r.Some? <==> st.0.calls + 1 <= sc.maxCalls && st.0.rows + n <= sc.maxRows)
      && st'.0 == Spent(st.0.calls + 1, st.0.rows + n)
      && st'.1 == (if r.Some? then st.1 + [(call.tool, n)] else st.1)
      && (r.Some? ==> |r.value| == n)
      && (r.Some? && i < n ==>
            var e, x := r.value[i], inTime[i];
            && e.id == sc.sourceName(x.source) + ":" + x.subject + ":" + x.metric + ":" + sc.showTime(x.at)
            && e.subject == x.subject && e.metric == x.metric && e.value == x.value && e.unit == x.unit && e.at == x.at
            && (e.trusted <==> !(x.source == Log || x.source == Runbook)))
  {
    FilterSame(call.records, Until(sc.asOf), (r: Record) => r.at <= sc.asOf);
    hide Filter;
  }

  /** How many rows the trace accounts for. */
  function Accounted(trace: seq<(string, nat)>): nat {
    if trace == [] then 0 else Accounted(trace[..|trace| - 1]) + trace[|trace| - 1].1
  }

  lemma {:induction false} DeliveredIsTraced(all: seq<Call>, results: seq<Option<seq<Evidence>>>)
    requires |all| == |results|
    ensures var trace := TraceOf(all, results); Delivered(results) == (|trace|, Accounted(trace))
  {
    if all != [] {
      var n := |all| - 1;
      DeliveredIsTraced(all[..n], results[..n]);
      var front := TraceOf(all[..n], results[..n]);
      assert front + [] == front;
      if results[n].Some? { assert (front + [(all[n].tool, |results[n].value|)])[..|front|] == front; }
    }
  }
}
