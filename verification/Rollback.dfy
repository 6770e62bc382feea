/** The rollback state machine: undo completed steps in reverse, halting at the first doubt. */
module Rollback {
  /**
    What the world answers at one rollback step: whether the preconditions hold, whether the apply raises, the device
    state the apply leaves behind, and whether the read-back confirms it. A raised or unconfirmed apply may leave any
    state.
  */
  datatype Answer<S> = Answer(holds: bool, raised: bool, left: S, confirmed: bool) {
    predicate Good() { holds && !raised && confirmed }
  }

  datatype Reason = PreconditionsFailed | StepRaised | ReadBackFailed

  datatype Outcome = NotNeeded | RolledBack(reverted: nat) | Halted(reverted: nat, reason: Reason)

  datatype Event<A> = Checked(holds: bool) | Applied(action: A) | Read(action: A, confirmed: bool)

  /** The verdict of a rollback, the device state it leaves, and everything it asked of the device, in order. */
  datatype Result<S, A> = Result(outcome: Outcome, state: S, log: seq<Event<A>>)

  function Asked<A>(a: A): seq<Event<A>> { [Checked(true), Applied(a), Read(a, true)] }

  /** Undoing actions[n - 1] down to actions[0]; answers(i) is the world's answer at the step that undoes actions[i]. */
  function Undone<S, A>(actions: seq<A>, n: nat, answers: nat -> Answer<S>, s: S, reverted: nat,
      log: seq<Event<A>>): Result<S, A>
    requires n <= |actions|
  {
    if n == 0 then Result(RolledBack(reverted), s, log)
    else
      var a, w := actions[n - 1], answers(n - 1);
      if !w.holds then Result(Halted(reverted, PreconditionsFailed), s, log + [Checked(false)])
      else if w.raised then Result(Halted(reverted, StepRaised), w.left, log + [Checked(true), Applied(a)])
      else if !w.confirmed then
        Result(Halted(reverted, ReadBackFailed), w.left, log + [Checked(true), Applied(a), Read(a, false)])
      else Undone(actions, n - 1, answers, w.left, reverted + 1, log + Asked(a))
  }

  /** How many steps are undone: all completed ones that have a rollback action. */
  function Steps(completed: int, available: nat): nat {
    if completed <= 0 then 0 else if completed <= available then completed else available
  }

  /** The whole rollback, its requests added to an earlier log. */
  function RolledBackAfter<S, A>(completed: int, actions: seq<A>, answers: nat -> Answer<S>, s: S,
      log: seq<Event<A>>): Result<S, A> {
    if completed <= 0 then Result(NotNeeded, s, log)
    else Undone(actions, Steps(completed, |actions|), answers, s, 0, log)
  }

  function RolledBackFrom<S, A>(completed: int, actions: seq<A>, answers: nat -> Answer<S>, s: S): Result<S, A> {
    RolledBackAfter(completed, actions, answers, s, [])
  }

  /** The device behind the actuator. */
  class Device<S, A> {
    var state: S
    var log: seq<Event<A>>

    constructor (s: S)
      ensures state == s && log == []
    {
      state, log := s, [];
    }

    method Check(w: Answer<S>) returns (holds: bool)
      modifies `log
      ensures holds == w.holds && log == old(log) + [Checked(holds)]
    {
      holds := w.holds;
      log := log + [Checked(holds)];
    }

    method Apply(a: A, w: Answer<S>) returns (raised: bool)
      modifies this
      ensures raised == w.raised && state == w.left && log == old(log) + [Applied(a)]
    {
      raised, state, log := w.raised, w.left, log + [Applied(a)];
    }

    method Verify(a: A, w: Answer<S>) returns (confirmed: bool)
      modifies `log
      ensures confirmed == w.confirmed && log == old(log) + [Read(a, confirmed)]
    {
      confirmed := w.confirmed;
      log := log + [Read(a, confirmed)];
    }

    method Rollback(completed: int, actions: seq<A>, answers: nat -> Answer<S>) returns (outcome: Outcome)
      modifies this
      ensures Result(outcome, state, log) == RolledBackAfter(completed, actions, answers, old(state), old(log))
    {
      if completed <= 0 { return NotNeeded; }
      var n := Steps(completed, |actions|);
      var reverted := 0;
      while reverted < n
        invariant reverted <= n
        invariant Undone(actions, n - reverted, answers, state, reverted, log)
          == RolledBackAfter(completed, actions, answers, old(state), old(log))
      {
        ghost var before := log;
        var a, w := actions[n - 1 - reverted], answers(n - 1 - reverted);
        var holds := Check(w);
        if !holds { return Halted(reverted, PreconditionsFailed); }
        var raised := Apply(a, w);
        assert log == before + [Checked(true), Applied(a)];
        if raised { return Halted(reverted, StepRaised); }
        var confirmed := Verify(a, w);
        assert log == before + [Checked(true), Applied(a), Read(a, confirmed)];
        if !confirmed { return Halted(reverted, ReadBackFailed); }
        reverted := reverted + 1;
      }
      outcome := RolledBack(reverted);
    }
  }

  // ----- rollback inverts execution -----

  /** The device after the first k forward steps from s. */
  function After<S>(steps: seq<S -> S>, k: nat, s: S): S
    requires k <= |steps|
  {
    if k == 0 then s else steps[k - 1](After(steps, k - 1, s))
  }

  /** Each rollback action takes the device from after its forward step back to before it. */
  ghost predicate Inverse<S(!new), A(!new)>(steps: seq<S -> S>, actions: seq<A>, undo: (A, S) -> S, k: nat, s: S)
    requires k <= |steps| && k <= |actions|
  {
    forall i: nat | i < k :: undo(actions[i], After(steps, i + 1, s)) == After(steps, i, s)
  }

  /** A confirmed apply did what its action does. */
  ghost predicate Honest<S(!new), A(!new)>(actions: seq<A>, undo: (A, S) -> S, n: nat, answers: nat -> Answer<S>, s: S)
    requires n <= |actions|
  {
    n == 0 || (answers(n - 1).Good() ==>
      answers(n - 1).left == undo(actions[n - 1], s) && Honest(actions, undo, n - 1, answers, answers(n - 1).left))
  }

  /** The state a halted rollback leaves: exact if nothing was applied, otherwise whatever the doubtful apply left. */
  ghost predicate LeftBehind<S(!new)>(steps: seq<S -> S>, k: nat, reverted: nat, reason: Reason,
      answers: nat -> Answer<S>, s: S, left: S)
    requires reverted < k <= |steps|
  {
    left == if reason == PreconditionsFailed then After(steps, k - reverted, s) else answers(k - reverted - 1).left
  }

  lemma {:induction false} UndoneInverts<S(!new), A(!new)>(steps: seq<S -> S>, actions: seq<A>, undo: (A, S) -> S,
      answers: nat -> Answer<S>, k: nat, n: nat, s: S, log: seq<Event<A>>)
    requires n <= k <= |steps| && k <= |actions| && Inverse(steps, actions, undo, k, s)
    requires Honest(actions, undo, n, answers, After(steps, n, s))
    ensures var r := Undone(actions, n, answers, After(steps, n, s), k - n, log);
      match r.outcome
      case NotNeeded => false
      case RolledBack(reverted) => reverted == k && r.state == s
      case Halted(reverted, reason) =>
        k - n <= reverted < k && LeftBehind(steps, k, reverted, reason, answers, s, r.state)
  {
    if n > 0 && answers(n - 1).Good() {
      var i: nat := n - 1;
      assert undo(actions[i], After(steps, i + 1, s)) == After(steps, i, s);
      UndoneInverts(steps, actions, undo, answers, k, n - 1, s, log + Asked(actions[n - 1]));
    }
  }

  /**
    Rollback inverts execution. Run after k forward steps from s, a rolled-back result means the device is back at s. A
    halt with r steps reverted leaves the first k - r forward steps in force, with only step k - r in doubt, and not
    even that when it was the preconditions that failed.
  */
  lemma RollbackInverts<S(!new), A(!new)>(steps: seq<S -> S>, actions: seq<A>, undo: (A, S) -> S,
      answers: nat -> Answer<S>, k: nat, s: S)
    requires 1 <= k <= |steps| && k <= |actions| && Inverse(steps, actions, undo, k, s)
    requires Honest(actions, undo, k, answers, After(steps, k, s))
    ensures var r := RolledBackFrom(k, actions, answers, After(steps, k, s));
      match r.outcome
      case NotNeeded => false
      case RolledBack(reverted) => reverted == k && r.state == s
      case Halted(reverted, reason) => reverted < k && LeftBehind(steps, k, reverted, reason, answers, s, r.state)
  {
    UndoneInverts(steps, actions, undo, answers, k, k, s, []);
  }

  lemma {:induction false} UndoneGood<S(!new), A>(actions: seq<A>, n: nat, answers: nat -> Answer<S>, s: S,
      reverted: nat, log: seq<Event<A>>)
    requires n <= |actions|
    ensures var o := Undone(actions, n, answers, s, reverted, log).outcome;
      && !o.NotNeeded?
      && (o.RolledBack? <==> forall i: nat | i < n :: answers(i).Good())
      && (o.RolledBack? ==> o.reverted == reverted + n)
      && (o.Halted? ==> reverted <= o.reverted < reverted + n && !answers(n - 1 - (o.reverted - reverted)).Good())
      && (o.Halted? ==> forall i: nat | n - (o.reverted - reverted) <= i < n :: answers(i).Good())
  {
    if n > 0 && answers(n - 1).Good() {
      UndoneGood(actions, n - 1, answers, answers(n - 1).left, reverted + 1, log + Asked(actions[n - 1]));
    }
  }

  /**
    The verdict is exact: rolled back iff every step went well, and otherwise halted at the first step, counting back
    from the last, that did not. Every completed step is reverted iff each has a rollback action.
  */
  lemma VerdictIsExact<S(!new), A>(completed: int, actions: seq<A>, answers: nat -> Answer<S>, s: S)
    ensures var o, n := RolledBackFrom(completed, actions, answers, s).outcome, Steps(completed, |actions|);
      && (o.NotNeeded? <==> completed <= 0)
      && (o.RolledBack? <==> completed > 0 && forall i: nat | i < n :: answers(i).Good())
      && (o.RolledBack? ==> (o.reverted == completed <==> completed <= |actions|))
      && (o.Halted? ==>
            o.reverted < n && !answers(n - 1 - o.reverted).Good()
            && forall i: nat | n - o.reverted <= i < n :: answers(i).Good())
  {
    if completed > 0 { UndoneGood(actions, Steps(completed, |actions|), answers, s, 0, []); }
  }

  /**
    A rollback of k completed steps over a list of n actions that reads rolled back, where every action that is applied
    inverts its forward step and every confirmed apply did what its action does.
  */
  ghost predicate LooksRolledBack(n: nat, k: nat, steps: seq<int -> int>, actions: seq<int>,
      undo: (int, int) -> int, answers: nat -> Answer<int>, s: int)
  {
    && |actions| == n && k <= |steps|
    && Inverse(steps, actions, undo, Steps(k, n), s)
    && Honest(actions, undo, Steps(k, n), answers, After(steps, k, s))
    && RolledBackFrom(k, actions, answers, After(steps, k, s)).outcome.RolledBack?
  }

  /** The device is back where it started whenever a rollback of k steps over n actions reads rolled back. */
  ghost predicate AlwaysRestores(n: nat, k: nat) {
    forall steps, actions, undo, answers, s | LooksRolledBack(n, k, steps, actions, undo, answers, s) ::
      RolledBackFrom(k, actions, answers, After(steps, k, s)).state == s
  }

  function Counting(k: nat): seq<int -> int> { seq(k, _ => (x: int) => x + 1) }

  lemma {:induction false} CountedUp(k: nat, i: nat)
    requires i <= k
    ensures After(Counting(k), i, 0) == i
  {
    if i > 0 { CountedUp(k, i - 1); }
  }

  /** Answers of a device that does each of m undo steps from k. */
  function CountingDown(k: nat, m: nat): nat -> Answer<int> { (i: nat) => Answer(true, false, k - (m - i), true) }

  lemma {:induction false} CountedDown(k: nat, m: nat, j: nat, actions: seq<int>, reverted: nat, log: seq<Event<int>>)
    requires j <= m && m <= |actions|
    ensures Honest(actions, (a: int, x: int) => x - 1, j, CountingDown(k, m), k - (m - j))
    ensures var r := Undone(actions, j, CountingDown(k, m), k - (m - j), reverted, log);
      r.outcome.RolledBack? && r.state == k - m
  {
    if j > 0 { CountedDown(k, m, j - 1, actions, reverted + 1, log + Asked(actions[j - 1])); }
  }

  /** With fewer actions than completed steps some rollback reads rolled back without restoring the device. */
  lemma ShortListLooksRolledBack(n: nat, k: nat)
    requires n < k
    ensures !AlwaysRestores(n, k)
  {
    var steps, actions, answers := Counting(k), seq(n, _ => 0), CountingDown(k, n);
    var undo := (a: int, x: int) => x - 1;
    forall i: nat | i < n ensures undo(actions[i], After(steps, i + 1, 0)) == After(steps, i, 0) {
      CountedUp(k, i);
      CountedUp(k, i + 1);
    }
    CountedUp(k, k);
    CountedDown(k, n, n, actions, 0, []);
    assert LooksRolledBack(n, k, steps, actions, undo, answers, 0);
  }

  /** A rolled-back verdict always restores the device exactly when every completed step has a rollback action. */
  lemma RestoresIff(n: nat, k: nat)
    ensures AlwaysRestores(n, k) <==> k <= n
  {
    if n < k {
      ShortListLooksRolledBack(n, k);
    } else {
      forall steps, actions, undo, answers, s | LooksRolledBack(n, k, steps, actions, undo, answers, s)
        ensures RolledBackFrom(k, actions, answers, After(steps, k, s)).state == s
      {
        RollbackInverts(steps, actions, undo, answers, k, s);
      }
    }
  }

  // ----- order -----

  function Reversed<A>(s: seq<A>): seq<A> { if s == [] then [] else [s[|s| - 1]] + Reversed(s[..|s| - 1]) }

  function AppliedIn<A>(log: seq<Event<A>>): seq<A> {
    if log == [] then []
    else AppliedIn(log[..|log| - 1]) + if log[|log| - 1].Applied? then [log[|log| - 1].action] else []
  }

  /**
    An apply directly follows a check that held, a read-back its own apply, and a later check a confirmed read-back.
  */
  ghost predicate InPlace<A>(log: seq<Event<A>>, i: nat)
    requires i < |log|
  {
    match log[i]
    case Checked(_) => i == 0 || (log[i - 1].Read? && log[i - 1].confirmed)
    case Applied(_) => i > 0 && log[i - 1] == Checked(true)
    case Read(a, _) => i > 0 && log[i - 1] == Applied(a)
  }

  ghost predicate Guarded<A>(log: seq<Event<A>>) { forall i: nat | i < |log| :: InPlace(log, i) }

  /** How many applies a verdict stands for. */
  function Applies(o: Outcome): nat {
    match o
    case NotNeeded => 0
    case RolledBack(r) => r
    case Halted(r, reason) => if reason == PreconditionsFailed then r else r + 1
  }

  predicate ReadyToCheck<A>(log: seq<Event<A>>) { log == [] || (log[|log| - 1].Read? && log[|log| - 1].confirmed) }

  lemma AppliedInAppend<A>(log: seq<Event<A>>, e: Event<A>)
    ensures AppliedIn(log + [e]) == AppliedIn(log) + if e.Applied? then [e.action] else []
  {
    assert (log + [e])[..|log|] == log;
  }

  lemma AppliedInAsked<A>(log: seq<Event<A>>, a: A)
    ensures AppliedIn(log + [Checked(true)]) == AppliedIn(log)
    ensures AppliedIn(log + [Checked(false)]) == AppliedIn(log)
    ensures AppliedIn(log + [Checked(true), Applied(a)]) == AppliedIn(log) + [a]
    ensures AppliedIn(log + [Checked(true), Applied(a), Read(a, false)]) == AppliedIn(log) + [a]
    ensures AppliedIn(log + Asked(a)) == AppliedIn(log) + [a]
  {
    AppliedInAppend(log, Checked(true));
    AppliedInAppend(log, Checked(false));
    AppliedInAppend(log + [Checked(true)], Applied(a));
    assert log + [Checked(true)] + [Applied(a)] == log + [Checked(true), Applied(a)];
    AppliedInAppend(log + [Checked(true), Applied(a)], Read(a, false));
    AppliedInAppend(log + [Checked(true), Applied(a)], Read(a, true));
    assert log + [Checked(true), Applied(a)] + [Read(a, false)] == log + [Checked(true), Applied(a), Read(a, false)];
    assert log + [Checked(true), Applied(a)] + [Read(a, true)] == log + Asked(a);
  }

  lemma GuardedAppend<A(!new)>(log: seq<Event<A>>, e: Event<A>)
    requires Guarded(log) && InPlace(log + [e], |log|)
    ensures Guarded(log + [e])
  {
    forall i: nat | i < |log| ensures InPlace(log + [e], i) { assert InPlace(log, i); }
  }

  lemma GuardedAsked<A(!new)>(log: seq<Event<A>>, a: A)
    requires Guarded(log) && ReadyToCheck(log)
    ensures Guarded(log + [Checked(false)]) && Guarded(log + [Checked(true), Applied(a)])
    ensures Guarded(log + [Checked(true), Applied(a), Read(a, false)]) && Guarded(log + Asked(a))
    ensures ReadyToCheck(log + Asked(a))
  {
    GuardedAppend(log, Checked(false));
    GuardedAppend(log, Checked(true));
    GuardedAppend(log + [Checked(true)], Applied(a));
    assert log + [Checked(true)] + [Applied(a)] == log + [Checked(true), Applied(a)];
    GuardedAppend(log + [Checked(true), Applied(a)], Read(a, false));
    GuardedAppend(log + [Checked(true), Applied(a)], Read(a, true));
    assert log + [Checked(true), Applied(a)] + [Read(a, false)] == log + [Checked(true), Applied(a), Read(a, false)];
    assert log + [Checked(true), Applied(a)] + [Read(a, true)] == log + Asked(a);
  }

  lemma {:induction false} UndoneGuarded<S(!new), A(!new)>(actions: seq<A>, n: nat, answers: nat -> Answer<S>, s: S,
      reverted: nat, log: seq<Event<A>>)
    requires n <= |actions| && Guarded(log) && ReadyToCheck(log)
    ensures Guarded(Undone(actions, n, answers, s, reverted, log).log)
  {
    if n > 0 {
      GuardedAsked(log, actions[n - 1]);
      if answers(n - 1).Good() {
        UndoneGuarded(actions, n - 1, answers, answers(n - 1).left, reverted + 1, log + Asked(actions[n - 1]));
      }
    }
  }

  /** What the device is asked while the last k of the first n actions are undone, last action first. */
  function AskedFor<A>(actions: seq<A>, n: nat, k: nat): seq<Event<A>>
    requires k <= n <= |actions|
  {
    if k == 0 then []
    else
      var a := actions[n - k];
      AskedFor(actions, n, k - 1) + [Checked(true), Applied(a), Read(a, true)]
  }

  /** What it is asked at the step that halts, and what it answers. */
  function AskedLast<A>(a: A, reason: Reason): seq<Event<A>> {
    match reason
    case PreconditionsFailed => [Checked(false)]
    case StepRaised => [Checked(true), Applied(a)]
    case ReadBackFailed => [Checked(true), Applied(a), Read(a, false)]
  }

  lemma {:induction false} AskedFirst<A>(actions: seq<A>, n: nat, k: nat)
    requires 0 < k <= n <= |actions|
    ensures AskedFor(actions, n, k) == Asked(actions[n - 1]) + AskedFor(actions, n - 1, k - 1)
  {
    if k > 1 {
      AskedFirst(actions, n, k - 1);
      assert n - 1 - (k - 1) == n - k;
    }
  }

  lemma {:induction false} UndoneAsks<S(!new), A(!new)>(actions: seq<A>, n: nat, answers: nat -> Answer<S>, s: S,
      reverted: nat, log: seq<Event<A>>)
    requires n <= |actions|
    ensures var r := Undone(actions, n, answers, s, reverted, log);
      && !r.outcome.NotNeeded?
      && (r.outcome.RolledBack? ==> r.log == log + AskedFor(actions, n, n))
      && (r.outcome.Halted? ==>
            var k := r.outcome.reverted - reverted;
            0 <= k < n && r.log == log + AskedFor(actions, n, k) + AskedLast(actions[n - 1 - k], r.outcome.reason))
  {
    if n == 0 {
      assert log + [] == log;
    } else if answers(n - 1).Good() {
      var a := actions[n - 1];
      UndoneAsks(actions, n - 1, answers, answers(n - 1).left, reverted + 1, log + Asked(a));
      var r := Undone(actions, n, answers, s, reverted, log);
      var k := if r.outcome.RolledBack? then n else r.outcome.reverted - reverted;
      AskedFirst(actions, n, k);
      hide AskedFor, AskedLast, Asked, Undone;
      assert log + (Asked(a) + AskedFor(actions, n - 1, k - 1)) == log + Asked(a) + AskedFor(actions, n - 1, k - 1);
    } else {
      assert log + [] == log;
    }
  }

  /** Everything a rollback asks of the device and every answer, for each verdict. */
  lemma LogIsExact<S(!new), A(!new)>(completed: int, actions: seq<A>, answers: nat -> Answer<S>, s: S)
    ensures var r, n := RolledBackFrom(completed, actions, answers, s), Steps(completed, |actions|);
      match r.outcome
      case NotNeeded => r.log == [] && r.state == s
      case RolledBack(_) => r.log == AskedFor(actions, n, n)
      case Halted(k, reason) =>
        k < n && r.log == AskedFor(actions, n, k) + AskedLast(actions[n - 1 - k], reason)
  {
    hide AskedFor, AskedLast, Undone;
    if completed > 0 {
      var n := Steps(completed, |actions|);
      UndoneAsks(actions, n, answers, s, 0, []);
      var r := RolledBackFrom(completed, actions, answers, s);
      var k := if r.outcome.Halted? then r.outcome.reverted else n;
      assert [] + AskedFor(actions, n, k) == AskedFor(actions, n, k);
    }
  }

  /** What one step does to the verdict, the log and the applied actions. */
  lemma UndoneStep<S(!new), A(!new)>(actions: seq<A>, n: nat, answers: nat -> Answer<S>, s: S, reverted: nat,
      log: seq<Event<A>>)
    requires 0 < n <= |actions|
    ensures var r := Undone(actions, n, answers, s, reverted, log); var a := actions[n - 1];
      if answers(n - 1).Good() then
        r == Undone(actions, n - 1, answers, answers(n - 1).left, reverted + 1, log + Asked(a))
      else if Applies(r.outcome) == reverted then AppliedIn(r.log) == AppliedIn(log)
      else Applies(r.outcome) == reverted + 1 && AppliedIn(r.log) == AppliedIn(log) + [a]
  {
    AppliedInAsked(log, actions[n - 1]);
    hide AppliedIn;
  }

  lemma {:induction false} UndoneApplies<S(!new), A(!new)>(actions: seq<A>, n: nat, answers: nat -> Answer<S>, s: S,
      reverted: nat, log: seq<Event<A>>)
    requires n <= |actions|
    ensures var r := Undone(actions, n, answers, s, reverted, log);
      && reverted <= Applies(r.outcome) <= reverted + n == |Reversed(actions[..n])| + reverted
      && AppliedIn(r.log) == AppliedIn(log) + Reversed(actions[..n])[..Applies(r.outcome) - reverted]
  {
    ReversedLength(actions[..n]);
    if n == 0 {
      assert Reversed(actions[..n])[..0] == [];
    } else {
      var a := actions[n - 1];
      ReversedLast(actions, n);
      UndoneStep(actions, n, answers, s, reverted, log);
      AppliedInAsked(log, a);
      hide Undone, Reversed, AppliedIn, Asked, Applies;
      var r, rest := Undone(actions, n, answers, s, reverted, log), Reversed(actions[..n - 1]);
      if answers(n - 1).Good() {
        UndoneApplies(actions, n - 1, answers, answers(n - 1).left, reverted + 1, log + Asked(a));
        assert AppliedIn(r.log) == AppliedIn(log) + [a] + rest[..Applies(r.outcome) - reverted - 1];
      }
      TakeCons(AppliedIn(log), a, rest, Applies(r.outcome) - reverted);
    }
  }

  lemma ReversedLast<A>(actions: seq<A>, n: nat)
    requires 0 < n <= |actions|
    ensures Reversed(actions[..n]) == [actions[n - 1]] + Reversed(actions[..n - 1])
    ensures |Reversed(actions[..n])| == n && |Reversed(actions[..n - 1])| == n - 1
  {
    assert actions[..n][..n - 1] == actions[..n - 1];
    ReversedLength(actions[..n]);
    ReversedLength(actions[..n - 1]);
  }

  lemma TakeCons<A>(front: seq<A>, a: A, rest: seq<A>, m: nat)
    requires m <= 1 + |rest|
    ensures m > 0 ==> front + [a] + rest[..m - 1] == front + ([a] + rest)[..m]
    ensures m == 1 ==> front + [a] == front + ([a] + rest)[..m]
    ensures m == 0 ==> front == front + ([a] + rest)[..m]
  {
  }

  lemma {:induction false} ReversedLength<A>(s: seq<A>)
    ensures |Reversed(s)| == |s|
  {
    if s != [] { ReversedLength(s[..|s| - 1]); }
  }

  /**
    The actions reach the device in exact reverse order without a gap, each directly after a precondition check that
    held.
  */
  lemma AppliesInReverse<S(!new), A(!new)>(completed: int, actions: seq<A>, answers: nat -> Answer<S>, s: S)
    ensures var r, n := RolledBackFrom(completed, actions, answers, s), Steps(completed, |actions|);
      && Guarded(r.log)
      && Applies(r.outcome) <= n == |Reversed(actions[..n])|
      && AppliedIn(r.log) == Reversed(actions[..n])[..Applies(r.outcome)]
  {
    var n := Steps(completed, |actions|);
    ReversedLength(actions[..n]);
    if completed > 0 {
      UndoneGuarded(actions, n, answers, s, 0, []);
      UndoneApplies(actions, n, answers, s, 0, []);
    }
  }
}
