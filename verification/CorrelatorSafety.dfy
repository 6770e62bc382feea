/** What every interleaving of correlator transactions keeps. */
module CorrelatorSafety {
  import opened Sequences
  import opened Correlator

  // ----- row predicates for counting -----

  function SignalOf(id: nat): Signal -> bool { (x: Signal) => x.incident == id }
  function EventOf(id: nat): Event -> bool { (e: Event) => e.incident == id }
  function OpenedOf(id: nat): Event -> bool { (e: Event) => e.incident == id && e.kind.Opened? }
  function AttachedOf(id: nat): Event -> bool { (e: Event) => e.incident == id && e.kind.SignalAttached? }
  function CarriesSignal(id: nat): Event -> bool { (e: Event) => e.incident == id && e.kind != Opened(false) }
  function AuditOf(id: nat): nat -> bool { (x: nat) => x == id }

  // ----- the invariant -----

  ghost predicate DistinctIncidents(incidents: seq<Incident>) {
    forall i, j | 0 <= i < j < |incidents| :: incidents[i].key != incidents[j].key && incidents[i].id != incidents[j].id
  }

  ghost predicate DistinctSignals(signals: seq<Signal>) {
    forall i, j | 0 <= i < j < |signals| ::
      signals[i].source != signals[j].source || signals[i].eventId != signals[j].eventId
  }

  /** Event i takes its incident's next number, and is an "opened" event exactly when that number is 1. */
  ghost predicate NumberedAt(events: seq<Event>, i: nat)
    requires i < |events|
  {
    && events[i].number == Count(events[..i], EventOf(events[i].incident)) + 1
    && (events[i].kind.Opened? <==> events[i].number == 1)
  }

  ghost predicate Numbered(events: seq<Event>) {
    forall i {:trigger NumberedAt(events, i)} | 0 <= i < |events| :: NumberedAt(events, i)
  }

  /** The incident whose event is still to be appended, if it will carry a signal. */
  function Credit(phase: Phase, id: nat): nat {
    match phase
    case Numbering(incident, kind) => if incident == id && kind != Opened(false) then 1 else 0
    case Flushing(e) => if e.incident == id && e.kind != Opened(false) then 1 else 0
    case _ => 0
  }

  /** Signals of an incident match the events that carry one; audit rows match "opened" events. */
  ghost predicate Balanced(rows: Rows, phase: Phase, id: nat) {
    && Count(rows.signals, SignalOf(id)) == Count(rows.events, CarriesSignal(id)) + Credit(phase, id)
    && Count(rows.audit, AuditOf(id)) == Count(rows.events, OpenedOf(id))
  }

  /** The incident a transaction has created but not yet opened. */
  predicate Unopened(phase: Phase, id: nat) {
    match phase
    case Attaching(_, incident, created) => created && incident == id
    case Numbering(incident, kind) => kind.Opened? && incident == id
    case Flushing(e) => e.kind.Opened? && e.incident == id
    case _ => false
  }

  /** Every incident has its events, except one still being created, which has none. */
  ghost predicate AllOpened(rows: Rows, phase: Phase) {
    forall i | i in rows.incidents :: Count(rows.events, EventOf(i.id)) == 0 <==> Unopened(phase, i.id)
  }

  /** Rows point at existing incidents. */
  ghost predicate Referenced(rows: Rows, events: seq<Event>) {
    forall e | e in events :: HasId(rows.incidents, e.incident)
  }

  ghost predicate PhaseOk(seen: Rows, phase: Phase) {
    match phase
    case Attaching(_, incident, _) => HasId(seen.incidents, incident)
    case Numbering(incident, _) => HasId(seen.incidents, incident)
    case Flushing(e) =>
      HasId(seen.incidents, e.incident) && 1 <= e.number <= Count(seen.events, EventOf(e.incident)) + 1
    case _ => true
  }

  ghost predicate RowsOk(rows: Rows, phase: Phase, nextId: nat) {
    && DistinctIncidents(rows.incidents) && DistinctSignals(rows.signals) && Numbered(rows.events)
    && AllOpened(rows, phase) && Referenced(rows, rows.events)
    && (forall i | i in rows.incidents :: i.id < nextId)
  }

  ghost predicate TxnOk(committed: Rows, txn: Txn, nextId: nat) {
    && RowsOk(committed.Plus(txn.rows), txn.phase, nextId)
    && PhaseOk(committed.Plus(txn.rows), txn.phase)
    && (forall id: nat :: Balanced(txn.rows, txn.phase, id))
  }

  /** Two transactions' uncommitted rows share no unique key and no incident. */
  ghost predicate Apart(a: Rows, b: Rows) {
    && (forall i, j | i in a.incidents && j in b.incidents :: i.key != j.key && i.id != j.id)
    && (forall x, y | x in a.signals && y in b.signals :: x.source != y.source || x.eventId != y.eventId)
    && (forall e, f | e in a.events && f in b.events :: e.incident != f.incident)
  }

  ghost predicate Inv(s: System) {
    && RowsOk(s.committed, Idle, s.nextId)
    && (forall id: nat :: Balanced(s.committed, Idle, id))
    && (forall t | t in s.txns :: TxnOk(s.committed, s.txns[t], s.nextId))
    && (forall t, u | t in s.txns && u in s.txns && t != u :: Apart(s.txns[t].rows, s.txns[u].rows))
  }

  // ----- numbering -----

  lemma NumberedPrefix(events: seq<Event>, n: nat)
    requires Numbered(events) && n <= |events|
    ensures Numbered(events[..n])
  {
    forall i | 0 <= i < n ensures NumberedAt(events[..n], i) {
      assert NumberedAt(events, i) && events[..n][..i] == events[..i];
    }
  }

  lemma NumberedAppend(events: seq<Event>, e: Event)
    requires Numbered(events) && e.number == Count(events, EventOf(e.incident)) + 1
    requires e.kind.Opened? <==> e.number == 1
    ensures Numbered(events + [e])
  {
    var longer := events + [e];
    forall i | 0 <= i < |longer| ensures NumberedAt(longer, i) {
      if i < |events| {
        assert NumberedAt(events, i) && longer[..i] == events[..i];
      } else {
        assert longer[..i] == events;
      }
    }
  }

  /** The numbers of an incident's events are exactly 1, ..., k. */
  lemma {:induction false} NumbersAreGapless(events: seq<Event>, id: nat, n: nat)
    requires Numbered(events)
    ensures HasEvent(events, id, n) <==> 1 <= n <= Count(events, EventOf(id))
    ensures LastNumber(events, id) == Count(events, EventOf(id))
  {
    if events != [] {
      var last := |events| - 1;
      NumberedPrefix(events, last);
      NumbersAreGapless(events[..last], id, n);
      assert NumberedAt(events, last);
      assert forall e :: e in events <==> e in events[..last] || e == events[last];
    }
  }

  /** A transaction's first own event of an incident directly follows the committed ones. */
  lemma FirstOwnNumber(committed: seq<Event>, own: seq<Event>, e: Event)
    requires Numbered(committed + own) && e in own
    ensures HasEvent(own, e.incident, Count(committed, EventOf(e.incident)) + 1)
  {
    var id := e.incident;
    var n := Count(committed, EventOf(id)) + 1;
    CountConcat(committed, own, EventOf(id));
    SomeCount(own, e);
    NumbersAreGapless(committed + own, id, n);
    assert (committed + own)[..|committed|] == committed;
    NumberedPrefix(committed + own, |committed|);
    NumbersAreGapless(committed, id, n);
    var f :| f in committed + own && f.incident == id && f.number == n;
    assert f in committed || f in own;
  }

  lemma {:induction false} SomeCount(events: seq<Event>, e: Event)
    requires e in events
    ensures Count(events, EventOf(e.incident)) > 0
  {
    var last := |events| - 1;
    if events[last] != e { SomeCount(events[..last], e); }
  }

  lemma {:induction false} NoneCount(events: seq<Event>, id: nat)
    requires forall e | e in events :: e.incident != id
    ensures Count(events, EventOf(id)) == 0
  {
    if events != [] {
      assert forall e | e in events[..|events| - 1] :: e in events;
      assert events[|events| - 1] in events;
      NoneCount(events[..|events| - 1], id);
    }
  }

  // ----- another transaction's commit -----

  lemma NumberedMerge(c: seq<Event>, a: seq<Event>, b: seq<Event>)
    requires Numbered(c + a) && Numbered(c + b)
    requires forall e, f | e in a && f in b :: e.incident != f.incident
    ensures Numbered((c + a) + b)
  {
    var all := (c + a) + b;
    forall i | 0 <= i < |all| ensures NumberedAt(all, i) {
      if i < |c + a| {
        assert NumberedAt(c + a, i) && all[..i] == (c + a)[..i];
      } else {
        var k := i - |a|;
        var j := i - |c + a|;
        var id := all[i].incident;
        assert NumberedAt(c + b, k) && all[i] == (c + b)[k] == b[j];
        assert all[..i] == (c + a) + b[..j] && (c + b)[..k] == c + b[..j];
        CountConcat(c + a, b[..j], EventOf(id));
        CountConcat(c, a, EventOf(id));
        CountConcat(c, b[..j], EventOf(id));
        NoneCount(a, id);
      }
    }
  }

  lemma IncidentsMerge(c: seq<Incident>, a: seq<Incident>, b: seq<Incident>)
    requires DistinctIncidents(c + a) && DistinctIncidents(c + b)
    requires forall i, j | i in a && j in b :: i.key != j.key && i.id != j.id
    ensures DistinctIncidents((c + a) + b)
  {
    var all := (c + a) + b;
    forall i, j | 0 <= i < j < |all| ensures all[i].key != all[j].key && all[i].id != all[j].id {
      if j >= |c + a| {
        assert all[j] == b[j - |c + a|] == (c + b)[j - |a|];
        if i < |c| { assert all[i] == (c + b)[i]; }
        else if i < |c + a| { assert all[i] == a[i - |c|]; }
        else { assert all[i] == (c + b)[i - |a|]; }
      } else {
        assert all[i] == (c + a)[i] && all[j] == (c + a)[j];
      }
    }
  }

  lemma SignalsMerge(c: seq<Signal>, a: seq<Signal>, b: seq<Signal>)
    requires DistinctSignals(c + a) && DistinctSignals(c + b)
    requires forall x, y | x in a && y in b :: x.source != y.source || x.eventId != y.eventId
    ensures DistinctSignals((c + a) + b)
  {
    var all := (c + a) + b;
    forall i, j | 0 <= i < j < |all| ensures all[i].source != all[j].source || all[i].eventId != all[j].eventId {
      if j >= |c + a| {
        assert all[j] == b[j - |c + a|] == (c + b)[j - |a|];
        if i < |c| { assert all[i] == (c + b)[i]; }
        else if i < |c + a| { assert all[i] == a[i - |c|]; }
        else { assert all[i] == (c + b)[i - |a|]; }
      } else {
        assert all[i] == (c + a)[i] && all[j] == (c + a)[j];
      }
    }
  }

  /**
    What the transaction sees of one incident's events when another commits: only more of them, and none of its own
    unopened one.
  */
  lemma CountMerge(c: seq<Event>, a: seq<Event>, b: seq<Event>, id: nat)
    ensures Count((c + a) + b, EventOf(id)) == Count(c + b, EventOf(id)) + Count(a, EventOf(id))
  {
    CountConcat(c + a, b, EventOf(id));
    CountConcat(c, a, EventOf(id));
    CountConcat(c, b, EventOf(id));
  }

  lemma DistinctIds(incidents: seq<Incident>, i: Incident, j: Incident)
    requires DistinctIncidents(incidents) && i in incidents && j in incidents && i.id == j.id
    ensures i == j
  {
  }

  lemma OpenedMerge(c: Rows, a: Rows, txn: Txn, nextId: nat)
    requires RowsOk(c.Plus(a), Idle, nextId) && TxnOk(c, txn, nextId) && RowsOk(c, Idle, nextId) && Apart(a, txn.rows)
    ensures AllOpened(c.Plus(a).Plus(txn.rows), txn.phase)
  {
    var b := txn.rows;
    var all := c.Plus(a).Plus(b);
    forall i | i in all.incidents ensures Count(all.events, EventOf(i.id)) == 0 <==> Unopened(txn.phase, i.id) {
      CountMerge(c.events, a.events, b.events, i.id);
      if i in a.incidents {
        // opened by the committer, and unknown to txn so far
        assert i in c.Plus(a).incidents;
        CountConcat(c.events, a.events, EventOf(i.id));
        CountConcat(c.events, b.events, EventOf(i.id));
        IdClash(c.incidents, a.incidents, i);
        assert forall k | k in c.Plus(b).incidents :: k in c.incidents || k in b.incidents;
        assert !HasId(c.Plus(b).incidents, i.id);
      } else {
        assert i in c.Plus(b).incidents;
        if Unopened(txn.phase, i.id) { UnopenedUntouched(c, a, txn, nextId, i); }
      }
    }
  }

  lemma IdClash(c: seq<Incident>, a: seq<Incident>, i: Incident)
    requires DistinctIncidents(c + a) && i in a
    ensures !HasId(c, i.id)
  {
    var j :| 0 <= j < |a| && a[j] == i;
    assert (c + a)[|c| + j] == i;
    assert forall k | 0 <= k < |c| :: (c + a)[k] == c[k];
  }

  /** The committer has no events for an incident that another transaction is still creating. */
  lemma UnopenedUntouched(c: Rows, a: Rows, txn: Txn, nextId: nat, i: Incident)
    requires RowsOk(c.Plus(a), Idle, nextId) && TxnOk(c, txn, nextId) && RowsOk(c, Idle, nextId) && Apart(a, txn.rows)
    requires i in c.Plus(txn.rows).incidents && Unopened(txn.phase, i.id)
    ensures Count(a.events, EventOf(i.id)) == 0
  {
    var b := txn.rows;
    CountConcat(c.events, b.events, EventOf(i.id));
    assert i in b.incidents;
    IdClash(c.incidents, b.incidents, i);
    assert forall k | k in c.Plus(a).incidents :: k in c.incidents || k in a.incidents;
    assert !HasId(c.Plus(a).incidents, i.id);
    forall e | e in a.events ensures e.incident != i.id {
      assert e in c.Plus(a).events;
    }
    NoneCount(a.events, i.id);
  }

  lemma HasIdGrows(small: seq<Incident>, large: seq<Incident>, id: nat)
    requires HasId(small, id) && forall i | i in small :: i in large
    ensures HasId(large, id)
  {
    var i :| i in small && i.id == id;
    assert i in large;
  }

  /** When one transaction commits, every other stays in order. */
  lemma OtherCommits(c: Rows, a: Rows, txn: Txn, nextId: nat)
    requires RowsOk(c.Plus(a), Idle, nextId) && TxnOk(c, txn, nextId) && RowsOk(c, Idle, nextId) && Apart(a, txn.rows)
    ensures TxnOk(c.Plus(a), txn, nextId)
  {
    var b := txn.rows;
    var all := c.Plus(a).Plus(b);
    NumberedMerge(c.events, a.events, b.events);
    IncidentsMerge(c.incidents, a.incidents, b.incidents);
    SignalsMerge(c.signals, a.signals, b.signals);
    OpenedMerge(c, a, txn, nextId);
    forall i | i in all.incidents ensures i.id < nextId {
      assert i in c.Plus(a).incidents || i in c.Plus(b).incidents;
    }
    forall id | HasId(c.Plus(a).incidents, id) || HasId(c.Plus(b).incidents, id) ensures HasId(all.incidents, id) {
      if HasId(c.Plus(a).incidents, id) { HasIdGrows(c.Plus(a).incidents, all.incidents, id); }
      else { HasIdGrows(c.Plus(b).incidents, all.incidents, id); }
    }
    forall e | e in all.events ensures HasId(all.incidents, e.incident) {
      assert e in c.Plus(a).events || e in c.Plus(b).events;
    }
    if txn.phase.Flushing? { CountMerge(c.events, a.events, b.events, txn.phase.event.incident); }
  }

  // ----- one lemma per action -----

  /** The rest of the system is unaffected by what one transaction adds, as long as it stays apart from the others. */
  lemma OwnStep(s: System, t: nat, txn: Txn, nextId: nat)
    requires Inv(s) && t in s.txns && nextId >= s.nextId
    requires TxnOk(s.committed, txn, nextId)
    requires forall u | u in s.txns && u != t :: Apart(txn.rows, s.txns[u].rows) && Apart(s.txns[u].rows, txn.rows)
    ensures Inv(Update(s, t, txn.rows, txn.phase).(nextId := nextId))
  {
  }

  lemma DropStep(s: System, t: nat)
    requires Inv(s)
    ensures Inv(Drop(s, t))
  {
  }

  lemma BeginStep(s: System, t: nat)
    requires Inv(s) && t !in s.txns
    ensures Inv(Update(s, t, EMPTY, Idle))
  {
    assert s.committed.Plus(EMPTY) == s.committed;
  }

  lemma CommitStep(s: System, t: nat)
    requires Inv(s) && t in s.txns && s.txns[t].phase.Idle?
    ensures Inv(Drop(s.(committed := s.committed.Plus(s.txns[t].rows)), t))
  {
    var c, a := s.committed, s.txns[t].rows;
    forall id: nat ensures Balanced(c.Plus(a), Idle, id) {
      assert Balanced(c, Idle, id) && Balanced(a, Idle, id);
      CountConcat(c.signals, a.signals, SignalOf(id));
      CountConcat(c.events, a.events, CarriesSignal(id));
      CountConcat(c.events, a.events, OpenedOf(id));
      CountConcat(c.audit, a.audit, AuditOf(id));
    }
    forall u | u in s.txns && u != t ensures TxnOk(c.Plus(a), s.txns[u], s.nextId) {
      OtherCommits(c, a, s.txns[u], s.nextId);
    }
  }

  /** Moving inside a call without touching rows. */
  lemma PhaseStep(s: System, t: nat, phase: Phase)
    requires Inv(s) && t in s.txns && PhaseOk(Visible(s, t), phase)
    requires forall id: nat :: Credit(phase, id) == Credit(s.txns[t].phase, id)
    requires forall i | i in Visible(s, t).incidents :: Unopened(phase, i.id) == Unopened(s.txns[t].phase, i.id)
    ensures Inv(Update(s, t, s.txns[t].rows, phase))
  {
    var own := s.txns[t].rows;
    forall id: nat ensures Balanced(own, phase, id) { assert Balanced(own, s.txns[t].phase, id); }
    OwnStep(s, t, Txn(own, phase), s.nextId);
  }

  lemma NextNumber(s: System, t: nat, incident: nat, kind: Kind)
    requires Inv(s) && t in s.txns && s.txns[t].phase == Numbering(incident, kind)
    ensures Inv(Update(s, t, s.txns[t].rows,
      Flushing(Event(incident, LastNumber(Visible(s, t).events, incident) + 1, kind))))
  {
    NumbersAreGapless(Visible(s, t).events, incident, 0);
    PhaseStep(s, t, Flushing(Event(incident, LastNumber(Visible(s, t).events, incident) + 1, kind)));
  }

  lemma CreateTxn(c: Rows, own: Rows, request: Request, id: nat)
    requires TxnOk(c, Txn(own, Creating(request)), id) && !HasKey(c.Plus(own).incidents, request.key)
    ensures TxnOk(c, Txn(own.(incidents := own.incidents + [Incident(id, request.key)]), Attaching(request, id, true)),
      id + 1)
  {
    var row := Incident(id, request.key);
    var own' := own.(incidents := own.incidents + [row]);
    var seen, seen' := c.Plus(own), c.Plus(own');
    assert seen'.incidents == seen.incidents + [row];
    forall i | HasId(seen.incidents, i) ensures HasId(seen'.incidents, i) {
      HasIdGrows(seen.incidents, seen'.incidents, i);
    }
    forall e | e in seen.events ensures e.incident != id {
      var k :| k in seen.incidents && k.id == e.incident;
    }
    NoneCount(seen.events, id);
    assert row in seen'.incidents;
    forall x: nat ensures Balanced(own', Attaching(request, id, true), x) {
      assert Balanced(own, Creating(request), x);
    }
  }

  lemma ApartCreate(c: Rows, own: Rows, other: Txn, row: Incident)
    requires TxnOk(c, other, row.id) && Apart(own, other.rows) && !HasKey(other.rows.incidents, row.key)
    ensures var own' := own.(incidents := own.incidents + [row]); Apart(own', other.rows) && Apart(other.rows, own')
  {
    forall j | j in other.rows.incidents ensures j.key != row.key && j.id != row.id {
      assert j in c.Plus(other.rows).incidents;
    }
  }

  lemma CreateStep(s: System, t: nat, request: Request)
    requires Inv(s) && t in s.txns && s.txns[t].phase == Creating(request)
    ensures Inv(DoCreate(s, t, request))
  {
    var own := s.txns[t].rows;
    if exists u | u in s.txns :: u != t && HasKey(s.txns[u].rows.incidents, request.key) {
    } else if HasKey(Visible(s, t).incidents, request.key) {
      DropStep(s, t);
    } else {
      var row := Incident(s.nextId, request.key);
      var own' := own.(incidents := own.incidents + [row]);
      CreateTxn(s.committed, own, request, s.nextId);
      forall u | u in s.txns && u != t ensures Apart(own', s.txns[u].rows) && Apart(s.txns[u].rows, own') {
        ApartCreate(s.committed, own, s.txns[u], row);
      }
      OwnStep(s, t, Txn(own', Attaching(request, s.nextId, true)), s.nextId + 1);
    }
  }

  lemma AttachTxn(c: Rows, own: Rows, request: Request, incident: nat, created: bool, nextId: nat)
    requires TxnOk(c, Txn(own, Attaching(request, incident, created)), nextId)
    requires !HasSignal(c.Plus(own).signals, request.source, request.eventId)
    ensures TxnOk(c,
      Txn(own.(signals := own.signals + [Signal(incident, request.source, request.eventId)]),
        AfterAttach(incident, created, true)), nextId)
  {
    var row := Signal(incident, request.source, request.eventId);
    var own' := own.(signals := own.signals + [row]);
    assert c.Plus(own').signals == c.Plus(own).signals + [row];
    forall x: nat ensures Balanced(own', AfterAttach(incident, created, true), x) {
      assert Balanced(own, Attaching(request, incident, created), x);
      CountAppend(own.signals, row, SignalOf(x));
    }
  }

  lemma ApartAttach(own: Rows, other: Rows, row: Signal)
    requires Apart(own, other) && !HasSignal(other.signals, row.source, row.eventId)
    ensures var own' := own.(signals := own.signals + [row]); Apart(own', other) && Apart(other, own')
  {
  }

  lemma AttachStep(s: System, t: nat, request: Request, incident: nat, created: bool)
    requires Inv(s) && t in s.txns && s.txns[t].phase == Attaching(request, incident, created)
    ensures Inv(DoAttach(s, t, request, incident, created))
  {
    var own := s.txns[t].rows;
    if exists u | u in s.txns :: u != t && HasSignal(s.txns[u].rows.signals, request.source, request.eventId) {
    } else if HasSignal(Visible(s, t).signals, request.source, request.eventId) {
      PhaseStep(s, t, AfterAttach(incident, created, false));
    } else {
      var own' := own.(signals := own.signals + [Signal(incident, request.source, request.eventId)]);
      AttachTxn(s.committed, own, request, incident, created, s.nextId);
      forall u | u in s.txns && u != t ensures Apart(own', s.txns[u].rows) && Apart(s.txns[u].rows, own') {
        ApartAttach(own, s.txns[u].rows, Signal(incident, request.source, request.eventId));
      }
      OwnStep(s, t, Txn(own', AfterAttach(incident, created, true)), s.nextId);
    }
  }

  /**
    A flush that meets no clash takes exactly the next number: nobody else can have pending events of that incident.
  */
  lemma FlushTakesNext(s: System, t: nat, e: Event)
    requires Inv(s) && t in s.txns && s.txns[t].phase == Flushing(e)
    requires !HasEvent(Visible(s, t).events, e.incident, e.number)
    requires forall u | u in s.txns && u != t :: !HasEvent(s.txns[u].rows.events, e.incident, e.number)
    ensures e.number == Count(Visible(s, t).events, EventOf(e.incident)) + 1
    ensures forall u, f | u in s.txns && u != t && f in s.txns[u].rows.events :: f.incident != e.incident
  {
    var c, own := s.committed.events, s.txns[t].rows.events;
    NumbersAreGapless(c + own, e.incident, e.number);
    CountConcat(c, own, EventOf(e.incident));
    if Count(own, EventOf(e.incident)) == 0 {
      forall u, f | u in s.txns && u != t && f in s.txns[u].rows.events ensures f.incident != e.incident {
        FirstOwnNumber(c, s.txns[u].rows.events, f);
      }
    } else {
      var mine := SomeEvent(own, e.incident);
      assert forall u | u in s.txns && u != t :: Apart(s.txns[t].rows, s.txns[u].rows);
    }
  }

  lemma {:induction false} SomeEvent(events: seq<Event>, id: nat) returns (e: Event)
    requires Count(events, EventOf(id)) > 0
    ensures e in events && e.incident == id
  {
    e := events[|events| - 1];
    if e.incident != id { e := SomeEvent(events[..|events| - 1], id); }
  }

  lemma FlushBalances(own: Rows, e: Event, audit: seq<nat>, x: nat)
    requires Balanced(own, Flushing(e), x) && audit == if e.kind.Opened? then own.audit + [e.incident] else own.audit
    ensures Balanced(own.(events := own.events + [e], audit := audit), Idle, x)
  {
    CountAppend(own.events, e, CarriesSignal(x));
    CountAppend(own.events, e, OpenedOf(x));
    CountAppend(own.audit, e.incident, AuditOf(x));
    hide Count;
  }

  lemma FlushOpens(seen: Rows, e: Event)
    requires AllOpened(seen, Flushing(e)) && HasId(seen.incidents, e.incident)
    ensures AllOpened(seen.(events := seen.events + [e]), Idle)
    ensures Count(seen.events, EventOf(e.incident)) == 0 <==> e.kind.Opened?
  {
    hide Count;
    var i :| i in seen.incidents && i.id == e.incident;
    assert Count(seen.events, EventOf(i.id)) == 0 <==> Unopened(Flushing(e), i.id);
    forall k | k in seen.incidents ensures Count(seen.events + [e], EventOf(k.id)) != 0 {
      CountAppend(seen.events, e, EventOf(k.id));
    }
  }

  lemma FlushTxn(c: Rows, own: Rows, e: Event, nextId: nat)
    requires TxnOk(c, Txn(own, Flushing(e)), nextId)
    requires e.number == Count(c.Plus(own).events, EventOf(e.incident)) + 1
    ensures var audit := if e.kind.Opened? then own.audit + [e.incident] else own.audit;
      TxnOk(c, Txn(own.(events := own.events + [e], audit := audit), Idle), nextId)
  {
    hide Count, AllOpened, Balanced, Numbered;
    var audit := if e.kind.Opened? then own.audit + [e.incident] else own.audit;
    var own' := own.(events := own.events + [e], audit := audit);
    var seen := c.Plus(own);
    assert c.Plus(own').events == seen.events + [e];
    FlushOpens(seen, e);
    NumberedAppend(seen.events, e);
    SameOpened(seen.(events := seen.events + [e]), c.Plus(own'));
    forall x: nat ensures Balanced(own', Idle, x) {
      assert Balanced(own, Flushing(e), x);
      FlushBalances(own, e, audit, x);
    }
  }

  lemma SameOpened(a: Rows, b: Rows)
    requires AllOpened(a, Idle) && a.incidents == b.incidents && a.events == b.events
    ensures AllOpened(b, Idle)
  {
  }

  lemma ApartFlush(own: Rows, other: Rows, e: Event, audit: seq<nat>)
    requires Apart(own, other) && forall f | f in other.events :: f.incident != e.incident
    ensures var own' := own.(events := own.events + [e], audit := audit); Apart(own', other) && Apart(other, own')
  {
  }

  lemma FlushStep(s: System, t: nat, e: Event)
    requires Inv(s) && t in s.txns && s.txns[t].phase == Flushing(e)
    ensures Inv(DoFlush(s, t, e))
  {
    hide TxnOk;
    if exists u | u in s.txns :: u != t && HasEvent(s.txns[u].rows.events, e.incident, e.number) {
    } else if HasEvent(Visible(s, t).events, e.incident, e.number) {
      DropStep(s, t);
    } else {
      FlushTakesNext(s, t, e);
      FlushTxn(s.committed, s.txns[t].rows, e, s.nextId);
      var txn' := DoFlush(s, t, e).txns[t];
      forall u | u in s.txns && u != t ensures Apart(txn'.rows, s.txns[u].rows) && Apart(s.txns[u].rows, txn'.rows) {
        ApartFlush(s.txns[t].rows, s.txns[u].rows, e, txn'.rows.audit);
      }
      OwnStep(s, t, txn', s.nextId);
    }
  }

  lemma SelectStep(s: System, t: nat, request: Request)
    requires Inv(s) && t in s.txns && s.txns[t].phase.Idle?
    ensures Inv(Step(s, SelectIncident(t, request)))
  {
    var found := Lookup(Visible(s, t).incidents, request.key);
    PhaseStep(s, t, if found.Some? then Attaching(request, found.value, false) else Creating(request));
  }

  lemma StepKeepsInv(s: System, a: Action)
    requires Inv(s)
    ensures Inv(Step(s, a))
  {
    hide Inv, DoCreate, DoAttach, DoFlush, LastNumber, Lookup;
    var t := a.t;
    if t !in s.txns {
      BeginStep(s, t);
    } else {
      var phase := s.txns[t].phase;
      match a
      case Begin(_) =>
      case Abort(_) => DropStep(s, t);
      case Commit(_) => if phase.Idle? { CommitStep(s, t); }
      case SelectIncident(_, request) => if phase.Idle? { SelectStep(s, t, request); }
      case CreateIncident(_) => if phase.Creating? { CreateStep(s, t, phase.request); }
      case AttachSignal(_) => if phase.Attaching? { AttachStep(s, t, phase.request, phase.incident, phase.created); }
      case ReadNumber(_) => if phase.Numbering? { NextNumber(s, t, phase.incident, phase.kind); }
      case FlushEvent(_) => if phase.Flushing? { FlushStep(s, t, phase.event); }
    }
  }

  lemma {:induction false} RunKeepsInv(s: System, actions: seq<Action>)
    requires Inv(s)
    ensures Inv(Run(s, actions))
    decreases |actions|
  {
    if actions != [] {
      StepKeepsInv(s, actions[0]);
      RunKeepsInv(Step(s, actions[0]), actions[1..]);
    }
  }
}
