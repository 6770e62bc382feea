/** The correlator's promises over every interleaving, and one call without interference. */
module CorrelatorTheorems {
  import opened Sequences
  import opened Correlator
  import opened CorrelatorSafety

  function OpenedWithSignal(id: nat): Event -> bool { (e: Event) => e.incident == id && e.kind == Opened(true) }

  lemma {:induction false} CarriersSplit(events: seq<Event>, id: nat)
    ensures Count(events, CarriesSignal(id)) == Count(events, AttachedOf(id)) + Count(events, OpenedWithSignal(id))
  {
    if events != [] { CarriersSplit(events[..|events| - 1], id); }
  }

  lemma {:induction false} OpenedOnce(events: seq<Event>, id: nat)
    requires Numbered(events)
    ensures Count(events, OpenedOf(id)) == if Count(events, EventOf(id)) == 0 then 0 else 1
  {
    if events != [] {
      var last := |events| - 1;
      NumberedPrefix(events, last);
      OpenedOnce(events[..last], id);
      assert NumberedAt(events, last);
    }
  }

  lemma InitialInv()
    ensures Inv(INITIAL)
  {
  }

  /** The committed tables keep their keys distinct. */
  lemma KeysAreUnique(actions: seq<Action>)
    ensures var c := Run(INITIAL, actions).committed; DistinctIncidents(c.incidents) && DistinctSignals(c.signals)
  {
    InitialInv();
    RunKeepsInv(INITIAL, actions);
  }

  /**
    Each committed incident's events are numbered exactly 1..k with k >= 1, "opened" is number 1 and only that, there is
    one incident.open audit row, and its signals are its "signal_attached" events plus one if the opening call's signal
    was new.
  */
  lemma EventsTellTheStory(actions: seq<Action>, i: Incident, n: nat)
    requires i in Run(INITIAL, actions).committed.incidents
    ensures var c := Run(INITIAL, actions).committed; var k := Count(c.events, EventOf(i.id));
      && k >= 1 && (HasEvent(c.events, i.id, n) <==> 1 <= n <= k)
      && (forall e | e in c.events :: e.kind.Opened? <==> e.number == 1)
      && Count(c.events, OpenedOf(i.id)) == Count(c.audit, AuditOf(i.id)) == 1
      && Count(c.signals, SignalOf(i.id)) == Count(c.events, AttachedOf(i.id)) + Count(c.events, OpenedWithSignal(i.id))
  {
    InitialInv();
    RunKeepsInv(INITIAL, actions);
    var c := Run(INITIAL, actions).committed;
    NumbersAreGapless(c.events, i.id, n);
    OpenedOnce(c.events, i.id);
    CarriersSplit(c.events, i.id);
    assert Balanced(c, Idle, i.id);
    forall e | e in c.events ensures e.kind.Opened? <==> e.number == 1 {
      var x :| 0 <= x < |c.events| && c.events[x] == e;
      assert NumberedAt(c.events, x);
    }
  }

  // ----- replay -----

  /** The call's incident and signal are already committed. */
  predicate Replayed(c: Rows, r: Request) {
    HasKey(c.incidents, r.key) && HasSignal(c.signals, r.source, r.eventId)
  }

  /** Transaction t has written nothing and is at most in the middle of a replayed call. */
  predicate Quiet(s: System, t: nat) {
    t in s.txns ==>
      && s.txns[t].rows == EMPTY
      && match s.txns[t].phase
         case Idle => true
         case Attaching(r, _, created) => !created && HasSignal(s.committed.signals, r.source, r.eventId)
         case _ => false
  }

  /** Two systems that differ only in the replaying transaction. */
  predicate Same(a: System, b: System, t: nat) {
    a.committed == b.committed && a.nextId == b.nextId && b.txns == a.txns - {t}
  }

  function NotBy(t: nat): Action -> bool { (a: Action) => a.t != t }

  lemma CommittedGrows(s: System, a: Action, r: Request)
    ensures Replayed(s.committed, r) ==> Replayed(Step(s, a).committed, r)
    ensures HasSignal(s.committed.signals, r.source, r.eventId)
      ==> HasSignal(Step(s, a).committed.signals, r.source, r.eventId)
  {
    var c, c' := s.committed, Step(s, a).committed;
    if HasSignal(c.signals, r.source, r.eventId) {
      var x :| x in c.signals && x.source == r.source && x.eventId == r.eventId;
      assert x in c'.signals;
    }
    if HasKey(c.incidents, r.key) {
      var i :| i in c.incidents && i.key == r.key;
      assert i in c'.incidents;
    }
  }

  /** The replaying transaction's own action changes nothing but itself. */
  lemma ReplayStep(s: System, a: Action)
    requires Quiet(s, a.t) && (a.SelectIncident? ==> Replayed(s.committed, a.request))
    ensures Quiet(Step(s, a), a.t) && Step(s, a).committed == s.committed && Step(s, a).nextId == s.nextId
    ensures Step(s, a).txns - {a.t} == s.txns - {a.t}
  {
    assert s.committed.Plus(EMPTY) == s.committed;
  }

  /** Waiting looks at other transactions' rows, and the replaying one has none. */
  lemma SameUpdate(a: System, b: System, t: nat, u: nat, rows: Rows, phase: Phase)
    requires Same(a, b, t) && u != t
    ensures Same(Update(a, u, rows, phase), Update(b, u, rows, phase), t) && Same(Drop(a, u), Drop(b, u), t)
  {
  }

  lemma SameTxns(a: System, b: System, t: nat)
    requires Same(a, b, t)
    ensures forall v | v in a.txns && v != t :: v in b.txns && b.txns[v] == a.txns[v]
    ensures forall v | v in b.txns :: v in a.txns && v != t && b.txns[v] == a.txns[v]
  {
  }

  lemma SameCreate(a: System, b: System, t: nat, u: nat, r: Request)
    requires Quiet(a, t) && Same(a, b, t) && u != t && u in a.txns
    ensures Same(DoCreate(a, u, r), DoCreate(b, u, r), t)
  {
    SameTxns(a, b, t);
    assert (exists v | v in a.txns :: v != u && HasKey(a.txns[v].rows.incidents, r.key))
      <==> (exists v | v in b.txns :: v != u && HasKey(b.txns[v].rows.incidents, r.key));
    var own := a.txns[u].rows;
    SameUpdate(a, b, t, u, own.(incidents := own.incidents + [Incident(a.nextId, r.key)]),
      Attaching(r, a.nextId, true));
  }

  lemma SameAttach(a: System, b: System, t: nat, u: nat, r: Request, incident: nat, created: bool)
    requires Quiet(a, t) && Same(a, b, t) && u != t && u in a.txns
    ensures Same(DoAttach(a, u, r, incident, created), DoAttach(b, u, r, incident, created), t)
  {
    SameTxns(a, b, t);
    assert (exists v | v in a.txns :: v != u && HasSignal(a.txns[v].rows.signals, r.source, r.eventId))
      <==> (exists v | v in b.txns :: v != u && HasSignal(b.txns[v].rows.signals, r.source, r.eventId));
    var own := a.txns[u].rows;
    SameUpdate(a, b, t, u, own, AfterAttach(incident, created, false));
    SameUpdate(a, b, t, u, own.(signals := own.signals + [Signal(incident, r.source, r.eventId)]),
      AfterAttach(incident, created, true));
  }

  lemma SameFlush(a: System, b: System, t: nat, u: nat, e: Event)
    requires Quiet(a, t) && Same(a, b, t) && u != t && u in a.txns
    ensures Same(DoFlush(a, u, e), DoFlush(b, u, e), t)
  {
    SameTxns(a, b, t);
    assert (exists v | v in a.txns :: v != u && HasEvent(a.txns[v].rows.events, e.incident, e.number))
      <==> (exists v | v in b.txns :: v != u && HasEvent(b.txns[v].rows.events, e.incident, e.number));
    var own := a.txns[u].rows;
    SameUpdate(a, b, t, u,
      own.(events := own.events + [e], audit := if e.kind.Opened? then own.audit + [e.incident] else own.audit), Idle);
  }

  lemma QuietAfterOther(a: System, t: nat, x: Action)
    requires Quiet(a, t) && x.t != t
    ensures Quiet(Step(a, x), t)
  {
    if t in a.txns && a.txns[t].phase.Attaching? { CommittedGrows(a, x, a.txns[t].phase.request); }
  }

  /** Everyone else acts as if the replaying transaction were not there. */
  lemma OtherStep(a: System, b: System, t: nat, x: Action)
    requires Quiet(a, t) && Same(a, b, t) && x.t != t
    ensures Quiet(Step(a, x), t) && Same(Step(a, x), Step(b, x), t)
  {
    QuietAfterOther(a, t, x);
    var u := x.t;
    if u in a.txns {
      var phase := a.txns[u].phase;
      match x {
        case CreateIncident(_) => if phase.Creating? { SameCreate(a, b, t, u, phase.request); }
        case AttachSignal(_) =>
          if phase.Attaching? { SameAttach(a, b, t, u, phase.request, phase.incident, phase.created); }
        case FlushEvent(_) => if phase.Flushing? { SameFlush(a, b, t, u, phase.event); }
        case _ =>
      }
    }
  }

  /**
    A transaction that only makes calls whose key and signal are committed changes nothing, in any interleaving: the
    committed tables are those of the run without it.
  */
  lemma {:induction false} ReplayChangesNothing(a: System, b: System, t: nat, actions: seq<Action>)
    requires Quiet(a, t) && Same(a, b, t)
    requires forall x | x in actions && x.t == t && x.SelectIncident? :: Replayed(a.committed, x.request)
    ensures Run(a, actions).committed == Run(b, Filter(actions, NotBy(t))).committed
    decreases |actions|
  {
    if actions != [] {
      var x := actions[0];
      FilterHead(actions, NotBy(t));
      forall y | y in actions[1..] && y.t == t && y.SelectIncident? ensures Replayed(Step(a, x).committed, y.request) {
        CommittedGrows(a, x, y.request);
      }
      if x.t == t {
        ReplayStep(a, x);
        ReplayChangesNothing(Step(a, x), b, t, actions[1..]);
      } else {
        OtherStep(a, b, t, x);
        ReplayChangesNothing(Step(a, x), Step(b, x), t, actions[1..]);
        assert ([x] + Filter(actions[1..], NotBy(t)))[1..] == Filter(actions[1..], NotBy(t));
      }
    }
  }

  // ----- a committed call is one that can be replayed -----

  /** Call r has been selected by transaction t: it is in progress, or what it ensures is there for t to see. */
  ghost predicate Underway(s: System, t: nat, r: Request)
    requires t in s.txns
  {
    var seen, phase := Visible(s, t), s.txns[t].phase;
    || (HasKey(seen.incidents, r.key) && HasSignal(seen.signals, r.source, r.eventId))
    || phase == Creating(r)
    || (phase.Attaching? && phase.request == r && HasKey(seen.incidents, r.key))
  }

  /** Transaction t is open in every state of the run: it neither commits nor aborts. */
  ghost predicate Stays(s: System, t: nat, actions: seq<Action>)
    decreases |actions|
  {
    t in s.txns && (actions == [] || Stays(Step(s, actions[0]), t, actions[1..]))
  }

  /** A transaction that stays open sees no fewer incidents and signals. */
  lemma SightGrows(s: System, t: nat, a: Action)
    requires t in s.txns && t in Step(s, a).txns
    ensures forall i | i in Visible(s, t).incidents :: i in Visible(Step(s, a), t).incidents
    ensures forall x | x in Visible(s, t).signals :: x in Visible(Step(s, a), t).signals
  {
  }

  lemma SightKeeps(s: System, t: nat, a: Action, r: Request)
    requires t in s.txns && t in Step(s, a).txns
    ensures HasKey(Visible(s, t).incidents, r.key) ==> HasKey(Visible(Step(s, a), t).incidents, r.key)
    ensures HasSignal(Visible(s, t).signals, r.source, r.eventId)
        ==> HasSignal(Visible(Step(s, a), t).signals, r.source, r.eventId)
  {
    SightGrows(s, t, a);
    hide Step, Visible;
  }

  lemma UnderwayStep(s: System, t: nat, a: Action, r: Request)
    requires t in s.txns && t in Step(s, a).txns && Underway(s, t, r)
    ensures Underway(Step(s, a), t, r)
  {
    SightKeeps(s, t, a, r);
    var s' := Step(s, a);
    if a.t == t && a.CreateIncident? && s.txns[t].phase == Creating(r) && s'.txns[t].phase.Attaching? {
      var own := s'.txns[t].rows.incidents;
      assert own[|own| - 1] in Visible(s', t).incidents;
    }
    if a.t == t && a.AttachSignal? && s.txns[t].phase.Attaching? && !s'.txns[t].phase.Attaching? {
      var own := s'.txns[t].rows.signals;
      assert own != [] ==> own[|own| - 1] in Visible(s', t).signals;
    }
  }

  lemma {:induction false} UnderwayRun(s: System, t: nat, actions: seq<Action>, r: Request)
    requires Stays(s, t, actions) && Underway(s, t, r)
    ensures t in Run(s, actions).txns && Underway(Run(s, actions), t, r)
    decreases |actions|
  {
    if actions != [] {
      UnderwayStep(s, t, actions[0], r);
      UnderwayRun(Step(s, actions[0]), t, actions[1..], r);
    }
  }

  lemma SelectedIsUnderway(s: System, t: nat, r: Request)
    requires t in s.txns && s.txns[t].phase.Idle?
    ensures Underway(Step(s, SelectIncident(t, r)), t, r)
  {
  }

  lemma {:induction false} ReplayedStays(s: System, actions: seq<Action>, r: Request)
    requires Replayed(s.committed, r)
    ensures Replayed(Run(s, actions).committed, r)
    decreases |actions|
  {
    if actions != [] {
      CommittedGrows(s, actions[0], r);
      ReplayedStays(Step(s, actions[0]), actions[1..], r);
    }
  }

  /**
    A call that a transaction completes and commits is replayed from then on, whatever the transaction and all others do
    between and after.
  */
  lemma CommittedCallIsReplayed(s: System, t: nat, r: Request, actions: seq<Action>, later: seq<Action>)
    requires t in s.txns && s.txns[t].phase.Idle?
    requires var s1 := Step(s, SelectIncident(t, r));
      Stays(s1, t, actions) && t in Run(s1, actions).txns && Run(s1, actions).txns[t].phase.Idle?
    ensures var s2 := Step(Run(Step(s, SelectIncident(t, r)), actions), Commit(t));
      Replayed(s2.committed, r) && Replayed(Run(s2, later).committed, r)
  {
    hide Run;
    SelectedIsUnderway(s, t, r);
    var s1 := Step(s, SelectIncident(t, r));
    UnderwayRun(s1, t, actions, r);
    ReplayedStays(Step(Run(s1, actions), Commit(t)), later, r);
  }

  /** So once a call is committed, a transaction that only repeats it changes nothing, in any interleaving. */
  lemma CommittedCallCanBeRepeated(s: System, t: nat, r: Request, actions: seq<Action>, u: nat, later: seq<Action>)
    requires t in s.txns && s.txns[t].phase.Idle?
    requires var s1 := Step(s, SelectIncident(t, r));
      Stays(s1, t, actions) && t in Run(s1, actions).txns && Run(s1, actions).txns[t].phase.Idle?
    requires u == t || u !in Run(Step(s, SelectIncident(t, r)), actions).txns
    requires forall x | x in later && x.t == u && x.SelectIncident? :: x.request == r
    ensures var s2 := Step(Run(Step(s, SelectIncident(t, r)), actions), Commit(t));
      Run(s2, later).committed == Run(s2, Filter(later, NotBy(u))).committed
  {
    hide Run, Filter;
    CommittedCallIsReplayed(s, t, r, actions, later);
    var s2 := Step(Run(Step(s, SelectIncident(t, r)), actions), Commit(t));
    assert u !in s2.txns;
    assert s2.txns == s2.txns - {u};
    ReplayChangesNothing(s2, s2, u, later);
  }

  // ----- one call without interference -----

  /** The tables, the incident and the created flag after one undisturbed call. */
  function Serial(c: Rows, nextId: nat, r: Request): (Rows, nat, bool) {
    var found := Lookup(c.incidents, r.key);
    var created := found.None?;
    var id := if created then nextId else found.value;
    var inserted := !HasSignal(c.signals, r.source, r.eventId);
    var next := LastNumber(c.events, id) + 1;
    (Rows(if created then c.incidents + [Incident(id, r.key)] else c.incidents,
          if inserted then c.signals + [Signal(id, r.source, r.eventId)] else c.signals,
          if created then c.events + [Event(id, next, Opened(inserted))]
          else if inserted then c.events + [Event(id, next, SignalAttached)]
          else c.events,
          if created then c.audit + [id] else c.audit),
     id, created)
  }

  function CallActions(t: nat, r: Request): seq<Action> {
    [Begin(t), SelectIncident(t, r), CreateIncident(t), AttachSignal(t), ReadNumber(t), FlushEvent(t), Commit(t)]
  }

  lemma RunCons(s: System, a: Action, rest: seq<Action>)
    ensures Run(s, [a] + rest) == Run(Step(s, a), rest)
  {
    assert ([a] + rest)[1..] == rest;
  }

  /** The system while transaction 0 runs alone. */
  function Alone(c: Rows, own: Rows, phase: Phase, nextId: nat): System {
    System(c, map[0 := Txn(own, phase)], nextId)
  }

  lemma AloneCreate(c: Rows, r: Request, nextId: nat)
    requires !HasKey(c.incidents, r.key)
    ensures Step(Alone(c, EMPTY, Creating(r), nextId), CreateIncident(0))
         == Alone(c, Rows([Incident(nextId, r.key)], [], [], []), Attaching(r, nextId, true), nextId + 1)
  {
    assert c.Plus(EMPTY) == c;
    assert [] + [Incident(nextId, r.key)] == [Incident(nextId, r.key)];
  }

  lemma AloneAttach(c: Rows, own: Rows, r: Request, id: nat, created: bool, nextId: nat)
    requires own.signals == []
    ensures var inserted := !HasSignal(c.signals, r.source, r.eventId);
      Step(Alone(c, own, Attaching(r, id, created), nextId), AttachSignal(0))
      == Alone(c, own.(signals := if inserted then [Signal(id, r.source, r.eventId)] else []),
        AfterAttach(id, created, inserted), nextId)
  {
    assert c.Plus(own).signals == c.signals;
    assert [] + [Signal(id, r.source, r.eventId)] == [Signal(id, r.source, r.eventId)];
  }

  lemma AloneAppend(c: Rows, own: Rows, id: nat, kind: Kind, nextId: nat)
    requires Numbered(c.events) && own.events == [] && own.audit == []
    ensures Step(Step(Alone(c, own, Numbering(id, kind), nextId), ReadNumber(0)), FlushEvent(0))
         == Alone(c, own.(events := [Event(id, LastNumber(c.events, id) + 1, kind)],
           audit := if kind.Opened? then [id] else []), Idle, nextId)
  {
    var e := Event(id, LastNumber(c.events, id) + 1, kind);
    assert c.Plus(own).events == c.events;
    assert !HasEvent(c.events, id, e.number) by { NumbersAreGapless(c.events, id, e.number); }
    hide Numbered, HasEvent, LastNumber;
    assert Step(Alone(c, own, Numbering(id, kind), nextId), ReadNumber(0)) == Alone(c, own, Flushing(e), nextId);
    assert [] + [e] == [e] && [] + [id] == [id];
  }

  lemma AloneCommit(c: Rows, own: Rows, nextId: nat)
    ensures Step(Alone(c, own, Idle, nextId), Commit(0)).committed == c.Plus(own)
  {
  }

  lemma AloneSelect(c: Rows, nextId: nat, r: Request)
    ensures var found := Lookup(c.incidents, r.key);
      Step(Step(System(c, map[], nextId), Begin(0)), SelectIncident(0, r))
      == Alone(c, EMPTY, if found.Some? then Attaching(r, found.value, false) else Creating(r), nextId)
  {
    assert c.Plus(EMPTY) == c;
  }

  const AFTER_CREATE := [AttachSignal(0), ReadNumber(0), FlushEvent(0), Commit(0)]

  lemma OpeningCall(c: Rows, nextId: nat, r: Request)
    requires Numbered(c.events) && !HasKey(c.incidents, r.key)
    ensures Run(Alone(c, EMPTY, Creating(r), nextId), [CreateIncident(0)] + AFTER_CREATE).committed
      == Serial(c, nextId, r).0
  {
    hide Step, Run, HasSignal, LastNumber, Numbered;
    RunCons(Alone(c, EMPTY, Creating(r), nextId), CreateIncident(0), AFTER_CREATE);
    AloneCreate(c, r, nextId);
    FromAttach(c, Rows([Incident(nextId, r.key)], [], [], []), r, nextId, true, nextId + 1);
  }

  lemma NothingToCreate(c: Rows, r: Request, id: nat, nextId: nat)
    ensures var s := Alone(c, EMPTY, Attaching(r, id, false), nextId); Step(s, CreateIncident(0)) == s
  {
  }

  lemma AttachingCall(c: Rows, nextId: nat, r: Request, id: nat)
    requires Numbered(c.events) && Lookup(c.incidents, r.key) == Some(id)
    ensures Run(Alone(c, EMPTY, Attaching(r, id, false), nextId), [CreateIncident(0)] + AFTER_CREATE).committed
      == Serial(c, nextId, r).0
  {
    hide Run, Step, HasSignal, HasKey, HasId, LastNumber, Numbered, Lookup, Alone;
    var s := Alone(c, EMPTY, Attaching(r, id, false), nextId);
    RunCons(s, CreateIncident(0), AFTER_CREATE);
    NothingToCreate(c, r, id, nextId);
    FromAttach(c, EMPTY, r, id, false, nextId);
    assert c.incidents + [] == c.incidents;
  }

  /** In every quiescent reachable system, a call run alone as a transaction commits exactly the serial result. */
  lemma SerialIsARun(c: Rows, nextId: nat, r: Request)
    requires Numbered(c.events)
    ensures Run(System(c, map[], nextId), CallActions(0, r)).committed == Serial(c, nextId, r).0
  {
    hide Step, Run, Serial, HasKey, Numbered;
    var s0 := System(c, map[], nextId);
    var rest := [CreateIncident(0)] + AFTER_CREATE;
    RunCons(s0, Begin(0), [SelectIncident(0, r)] + rest);
    RunCons(Step(s0, Begin(0)), SelectIncident(0, r), rest);
    assert CallActions(0, r) == [Begin(0)] + ([SelectIncident(0, r)] + rest);
    AloneSelect(c, nextId, r);
    var found := Lookup(c.incidents, r.key);
    if found.None? { OpeningCall(c, nextId, r); } else { AttachingCall(c, nextId, r, found.value); }
  }

  lemma FromAttach(c: Rows, own: Rows, r: Request, id: nat, created: bool, nextId: nat)
    requires Numbered(c.events) && own.signals == [] && own.events == [] && own.audit == []
    ensures var inserted := !HasSignal(c.signals, r.source, r.eventId);
      var next := LastNumber(c.events, id) + 1;
      Run(Alone(c, own, Attaching(r, id, created), nextId), AFTER_CREATE).committed
      == Rows(c.incidents + own.incidents,
              if inserted then c.signals + [Signal(id, r.source, r.eventId)] else c.signals,
              if created then c.events + [Event(id, next, Opened(inserted))]
              else if inserted then c.events + [Event(id, next, SignalAttached)] else c.events,
              if created then c.audit + [id] else c.audit)
  {
    var inserted := !HasSignal(c.signals, r.source, r.eventId);
    var s4 := Step(Alone(c, own, Attaching(r, id, created), nextId), AttachSignal(0));
    var own4 := own.(signals := if inserted then [Signal(id, r.source, r.eventId)] else []);
    AloneAttach(c, own, r, id, created, nextId);
    var s6 := Step(Step(s4, ReadNumber(0)), FlushEvent(0));
    if created || inserted {
      AloneAppend(c, own4, id, if created then Opened(inserted) else SignalAttached, nextId);
    } else {
      assert s6 == s4;
    }
    AloneCommit(c, s6.txns[0].rows, nextId);
    RunCons(Alone(c, own, Attaching(r, id, created), nextId), AttachSignal(0),
      [ReadNumber(0), FlushEvent(0), Commit(0)]);
    RunCons(s4, ReadNumber(0), [FlushEvent(0), Commit(0)]);
    RunCons(Step(s4, ReadNumber(0)), FlushEvent(0), [Commit(0)]);
    RunCons(s6, Commit(0), []);
    assert c.signals + [] == c.signals && c.events + [] == c.events && c.audit + [] == c.audit;
  }

  /**
   The key alone decides whether an incident is opened. So a duplicate (source, event id) under a new key opens one,
   although the documentation has it attach to the existing incident.
   */
  lemma DuplicateSignalCanOpen()
    ensures var first := Serial(EMPTY, 0, Request("link-a", "rules", "e1")).0;
      var second := Serial(first, 1, Request("link-b", "rules", "e1"));
      && second.2 && |second.0.incidents| == 2 && |second.0.signals| == 1
      && Count(second.0.signals, SignalOf(second.1)) == 0
  {
    var first := Serial(EMPTY, 0, Request("link-a", "rules", "e1")).0;
    assert first.incidents == [Incident(0, "link-a")] && first.signals == [Signal(0, "rules", "e1")];
    assert first.signals[0] in first.signals;
    assert "link-a"[5] != "link-b"[5];
    assert Lookup(first.incidents, "link-b").None?;
    CountAppend([], first.signals[0], SignalOf(1));
    assert [] + first.signals == first.signals;
  }

  /** A call attaches to an existing incident exactly when its key is already there, whatever the signal. */
  lemma AttachesIff(c: Rows, nextId: nat, r: Request)
    ensures !Serial(c, nextId, r).2 <==> HasKey(c.incidents, r.key)
    ensures HasKey(c.incidents, r.key) && HasSignal(c.signals, r.source, r.eventId) <==> Serial(c, nextId, r).0 == c
  {
    var after := Serial(c, nextId, r).0;
    if !HasKey(c.incidents, r.key) {
      assert |after.incidents| == |c.incidents| + 1;
    } else if !HasSignal(c.signals, r.source, r.eventId) {
      assert |after.signals| == |c.signals| + 1;
    }
  }

  /**
    The whole effect of one undisturbed call. An incident is opened, with its audit row, exactly when the key is new;
    the signal is stored exactly when its (source, event id) is; and one event says which of the two happened, numbered
    one above the incident's highest.
  */
  lemma SerialIs(c: Rows, nextId: nat, r: Request)
    ensures var (after, id, created) := Serial(c, nextId, r);
      var inserted := forall x | x in c.signals :: x.source != r.source || x.eventId != r.eventId;
      && (created <==> forall i | i in c.incidents :: i.key != r.key)
      && (created ==> id == nextId && after.incidents == c.incidents + [Incident(nextId, r.key)])
      && (!created ==> Incident(id, r.key) in c.incidents && after.incidents == c.incidents)
      && after.audit == c.audit + (if created then [nextId] else [])
      && after.signals == c.signals + (if inserted then [Signal(id, r.source, r.eventId)] else [])
      && (created || inserted ==>
            && |after.events| == |c.events| + 1 && after.events[..|c.events|] == c.events
            && var n := after.events[|c.events|].number;
            && after.events[|c.events|] == Event(id, n, if created then Opened(inserted) else SignalAttached)
            && (forall e | e in c.events && e.incident == id :: e.number < n)
            && (n == 1 || (n > 1 && exists e | e in c.events :: e.incident == id && e.number == n - 1)))
      && (!created && !inserted ==> after.events == c.events)
  {
    hide LastNumber, HasKey, HasSignal, Lookup, HasEvent, Serial;
    KeysAre(c, r);
    SerialTables(c, nextId, r);
    NumberIs(c.events, Serial(c, nextId, r).1);
  }

  lemma SerialTables(c: Rows, nextId: nat, r: Request)
    ensures var (after, id, created) := Serial(c, nextId, r);
      var found, inserted := Lookup(c.incidents, r.key), !HasSignal(c.signals, r.source, r.eventId);
      && created == found.None? && id == (if created then nextId else found.value)
      && after.incidents == (if created then c.incidents + [Incident(nextId, r.key)] else c.incidents)
      && after.audit == c.audit + (if created then [nextId] else [])
      && after.signals == c.signals + (if inserted then [Signal(id, r.source, r.eventId)] else [])
      && (!created && !inserted ==> after.events == c.events)
      && (created || inserted ==>
            && |after.events| == |c.events| + 1 && after.events[..|c.events|] == c.events
            && after.events[|c.events|]
               == Event(id, LastNumber(c.events, id) + 1, if created then Opened(inserted) else SignalAttached))
  {
    hide LastNumber, HasKey, HasSignal, Lookup, HasEvent;
    assert c.events + [] == c.events && c.signals + [] == c.signals && c.audit + [] == c.audit;
  }

  lemma KeysAre(c: Rows, r: Request)
    ensures Lookup(c.incidents, r.key).None? <==> forall i | i in c.incidents :: i.key != r.key
    ensures Lookup(c.incidents, r.key).Some? ==> Incident(Lookup(c.incidents, r.key).value, r.key) in c.incidents
    ensures HasSignal(c.signals, r.source, r.eventId)
      <==> !forall x | x in c.signals :: x.source != r.source || x.eventId != r.eventId
  {
  }

  lemma NumberIs(events: seq<Event>, id: nat)
    ensures var last := LastNumber(events, id);
      && (forall e | e in events && e.incident == id :: e.number <= last)
      && (last == 0 || exists e | e in events :: e.incident == id && e.number == last)
  {
    LastNumberIsHighest(events, id);
  }

  // ----- the session as it runs -----

  /** The correlator's tables, updated statement by statement by one transaction at a time. */
  class Session {
    var incidents: seq<Incident>
    var signals: seq<Signal>
    var events: seq<Event>
    var audit: seq<nat>
    var nextId: nat

    constructor ()
      ensures Tables() == EMPTY && nextId == 0
    {
      incidents, signals, events, audit, nextId := [], [], [], [], 0;
    }

    function Tables(): Rows
      reads this
    {
      Rows(incidents, signals, events, audit)
    }

    /**
      The new event is numbered above every earlier event of its incident, and next to the highest; the others stay.
    */
    method AppendEvent(incident: nat, kind: Kind)
      modifies this`events
      ensures events == old(events) + [Event(incident, LastNumber(old(events), incident) + 1, kind)]
      ensures forall e | e in old(events) && e.incident == incident :: e.number < events[|old(events)|].number
      ensures events[|old(events)|].number == 1 || HasEvent(old(events), incident, events[|old(events)|].number - 1)
    {
      LastNumberIsHighest(events, incident);
      var last := LastNumber(events, incident);
      events := events + [Event(incident, last + 1, kind)];
    }

    method CorrelateSignal(r: Request) returns (incident: nat, created: bool)
      modifies this
      ensures (Tables(), incident, created) == Serial(old(Tables()), old(nextId), r)
      ensures nextId == old(nextId) + (if created then 1 else 0)
    {
      var existing := Lookup(incidents, r.key);
      created := existing.None?;
      if created {
        incident := nextId;
        nextId := nextId + 1;
        incidents := incidents + [Incident(incident, r.key)];
      } else {
        incident := existing.value;
      }
      var signalInserted := !HasSignal(signals, r.source, r.eventId);
      if signalInserted {
        signals := signals + [Signal(incident, r.source, r.eventId)];
      }
      if created {
        AppendEvent(incident, Opened(signalInserted));
        audit := audit + [incident];
      } else if signalInserted {
        AppendEvent(incident, SignalAttached);
      }
    }
  }
}
