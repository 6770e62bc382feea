/**
  The idempotent correlator as concurrent database transactions.  A transaction runs correlate_signal calls one after
  another; each SQL statement is one atomic action. An insert that meets another transaction's uncommitted row with the
  same unique key waits (the action does nothing), one that meets a visible row with that key is a conflict, and any
  transaction may abort at any time.
*/
module Correlator {
  import opened Sequences

  datatype Incident = Incident(id: nat, key: string)

  datatype Signal = Signal(incident: nat, source: string, eventId: string)

  /** withSignal is a history bit: it records whether the opening call's signal was inserted. */
  datatype Kind = Opened(withSignal: bool) | SignalAttached

  datatype Event = Event(incident: nat, number: nat, kind: Kind)

  /** audit lists the incidents of the incident.open audit rows. */
  datatype Rows = Rows(incidents: seq<Incident>, signals: seq<Signal>, events: seq<Event>, audit: seq<nat>) {
    function Plus(other: Rows): Rows {
      Rows(incidents + other.incidents, signals + other.signals, events + other.events, audit + other.audit)
    }
  }

  const EMPTY := Rows([], [], [], [])

  datatype Request = Request(key: string, source: string, eventId: string)

  /** Where a transaction stands inside a call. */
  datatype Phase =
    | Idle
    | Creating(request: Request)
    | Attaching(request: Request, incident: nat, created: bool)
    | Numbering(incident: nat, kind: Kind)
    | Flushing(event: Event)

  /** A transaction: its uncommitted rows and its phase. */
  datatype Txn = Txn(rows: Rows, phase: Phase)

  datatype System = System(committed: Rows, txns: map<nat, Txn>, nextId: nat)

  const INITIAL := System(EMPTY, map[], 0)

  datatype Action =
    | Begin(t: nat)
    | SelectIncident(t: nat, request: Request)
    | CreateIncident(t: nat)
    | AttachSignal(t: nat)
    | ReadNumber(t: nat)
    | FlushEvent(t: nat)
    | Commit(t: nat)
    | Abort(t: nat)

  predicate HasKey(incidents: seq<Incident>, key: string) { exists i | i in incidents :: i.key == key }

  predicate HasId(incidents: seq<Incident>, id: nat) { exists i | i in incidents :: i.id == id }

  predicate HasSignal(signals: seq<Signal>, source: string, eventId: string) {
    exists x | x in signals :: x.source == source && x.eventId == eventId
  }

  predicate HasEvent(events: seq<Event>, incident: nat, number: nat) {
    exists e | e in events :: e.incident == incident && e.number == number
  }

  /** The id of the incident with this key. */
  function Lookup(incidents: seq<Incident>, key: string): (r: Option<nat>)
    ensures r.None? <==> !HasKey(incidents, key)
    ensures r.Some? ==> HasId(incidents, r.value) && Incident(r.value, key) in incidents
  {
    if incidents == [] then None
    else if incidents[0].key == key then Some(incidents[0].id)
    else
      assert forall i :: i in incidents <==> i == incidents[0] || i in incidents[1..];
      Lookup(incidents[1..], key)
  }

  /** The highest sequence number of the incident's events, or 0 without any. */
  function LastNumber(events: seq<Event>, incident: nat): nat {
    if events == [] then 0 else
    var e := events[|events| - 1];
    var before := LastNumber(events[..|events| - 1], incident);
    if e.incident == incident && e.number > before then e.number else before
  }

  /** No event of the incident has a higher number, and one has this number if there is any. */
  lemma {:induction false} LastNumberIsHighest(events: seq<Event>, incident: nat)
    ensures forall e | e in events && e.incident == incident :: e.number <= LastNumber(events, incident)
    ensures LastNumber(events, incident) == 0 || HasEvent(events, incident, LastNumber(events, incident))
  {
    if events != [] {
      var n := |events| - 1;
      LastNumberIsHighest(events[..n], incident);
      assert forall e :: e in events <==> e in events[..n] || e == events[n];
    }
  }

  /** What a statement of transaction t sees: committed rows and its own. */
  function Visible(s: System, t: nat): Rows
    requires t in s.txns
  {
    s.committed.Plus(s.txns[t].rows)
  }

  function Update(s: System, t: nat, rows: Rows, phase: Phase): System {
    s.(txns := s.txns[t := Txn(rows, phase)])
  }

  function Drop(s: System, t: nat): System { s.(txns := s.txns - {t}) }

  function DoCreate(s: System, t: nat, request: Request): System
    requires t in s.txns
  {
    var own := s.txns[t].rows;
    if exists u | u in s.txns :: u != t && HasKey(s.txns[u].rows.incidents, request.key) then s
    else if HasKey(Visible(s, t).incidents, request.key) then Drop(s, t)
    else
      Update(s, t, own.(incidents := own.incidents + [Incident(s.nextId, request.key)]),
        Attaching(request, s.nextId, true))
        .(nextId := s.nextId + 1)
  }

  /** After the signal upsert: which event, if any, is still to be appended. */
  function AfterAttach(incident: nat, created: bool, inserted: bool): Phase {
    if created then Numbering(incident, Opened(inserted))
    else if inserted then Numbering(incident, SignalAttached)
    else Idle
  }

  function DoAttach(s: System, t: nat, request: Request, incident: nat, created: bool): System
    requires t in s.txns
  {
    var own := s.txns[t].rows;
    if exists u | u in s.txns :: u != t && HasSignal(s.txns[u].rows.signals, request.source, request.eventId) then s
    else if HasSignal(Visible(s, t).signals, request.source, request.eventId) then
      Update(s, t, own, AfterAttach(incident, created, false))
    else
      Update(s, t, own.(signals := own.signals + [Signal(incident, request.source, request.eventId)]),
             AfterAttach(incident, created, true))
  }

  function DoFlush(s: System, t: nat, e: Event): System
    requires t in s.txns
  {
    var own := s.txns[t].rows;
    if exists u | u in s.txns :: u != t && HasEvent(s.txns[u].rows.events, e.incident, e.number) then s
    else if HasEvent(Visible(s, t).events, e.incident, e.number) then Drop(s, t)
    else
      var audit := if e.kind.Opened? then own.audit + [e.incident] else own.audit;
      Update(s, t, own.(events := own.events + [e], audit := audit), Idle)
  }

  /** One action; an action that does not fit the transaction's phase, or that has to wait, changes nothing. */
  function Step(s: System, a: Action): System {
    if a.t !in s.txns then
      if a.Begin? then Update(s, a.t, EMPTY, Idle) else s
    else
      var own := s.txns[a.t].rows;
      var phase := s.txns[a.t].phase;
      match a
      case Begin(_) => s
      case Abort(t) => Drop(s, t)
      case Commit(t) => if phase.Idle? then Drop(s.(committed := s.committed.Plus(own)), t) else s
      case SelectIncident(t, request) =>
        if !phase.Idle? then s else
        var found := Lookup(Visible(s, t).incidents, request.key);
        Update(s, t, own, if found.Some? then Attaching(request, found.value, false) else Creating(request))
      case CreateIncident(t) => if phase.Creating? then DoCreate(s, t, phase.request) else s
      case AttachSignal(t) =>
        if phase.Attaching? then DoAttach(s, t, phase.request, phase.incident, phase.created) else s
      case ReadNumber(t) =>
        if !phase.Numbering? then s else
        var next := LastNumber(Visible(s, t).events, phase.incident) + 1;
        Update(s, t, own, Flushing(Event(phase.incident, next, phase.kind)))
      case FlushEvent(t) => if phase.Flushing? then DoFlush(s, t, phase.event) else s
  }

  /** An interleaving is any sequence of actions. */
  function Run(s: System, actions: seq<Action>): System
    decreases |actions|
  {
    if actions == [] then s else Run(Step(s, actions[0]), actions[1..])
  }
}
