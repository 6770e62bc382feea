/** The claims about whole runs: what reaches the device, how often, and which states can be seen. */
module ProtocolTheorems {
  import opened Sequences
  import opened Protocol
  import opened ProtocolSafety

  lemma InitialInv(digest: Plan -> string)
    ensures Inv(INITIAL, digest)
  {
  }

  lemma Reachable(calls: seq<Call>, digest: Plan -> string)
    ensures Inv(Run(INITIAL, calls, digest), digest)
  {
    InitialInv(digest);
    RunKeepsInv(INITIAL, calls, digest);
  }

  // ----- what reaches the device -----

  /**
    Whatever was called and whatever failed, every device write, committed or not, is the "enable" of an allowlisted,
    non-management plan that was approved before the write, and the log it saw ends in its own intent record.
  */
  lemma EveryWriteIsAuthorized(calls: seq<Call>, digest: Plan -> string)
    ensures var s := Run(INITIAL, calls, digest); forall w | w in s.trace :: Authorized(s.db, w)
  {
    Reachable(calls, digest);
  }

  function CheckFor(es: seq<Execution>, j: nat): RecoveryCheck -> bool {
    (c: RecoveryCheck) => c.execution < |es| && es[c.execution].job == j
  }

  /** Checks that point at executions one to one count like the executions. */
  lemma {:induction false} ChecksCount(cs: seq<RecoveryCheck>, es: seq<Execution>, n: nat, j: nat)
    requires |cs| == |es| && n <= |es| && forall i | 0 <= i < |cs| :: cs[i].execution == i
    ensures Count(cs[..n], CheckFor(es, j)) == Count(es[..n], ExecutionFor(j))
  {
    if n > 0 {
      assert cs[..n] == cs[..n - 1] + [cs[n - 1]] && es[..n] == es[..n - 1] + [es[n - 1]];
      CountAppend(cs[..n - 1], cs[n - 1], CheckFor(es, j));
      CountAppend(es[..n - 1], es[n - 1], ExecutionFor(j));
      ChecksCount(cs, es, n - 1, j);
    }
  }

  /**
    Per job, committed writes, intents, apply records, executions and recovery checks are equal in number, and at most
    one.
  */
  lemma OneOfEachPerJob(calls: seq<Call>, digest: Plan -> string, j: nat)
    ensures var s := Run(INITIAL, calls, digest);
      && Count(s.trace, KeptFor(j)) == Count(s.db.audit, IntentFor(j)) == Count(s.db.audit, AppliedFor(j))
      && Count(s.db.audit, AppliedFor(j)) == Count(s.db.executions, ExecutionFor(j))
      && Count(s.db.executions, ExecutionFor(j)) == Count(s.db.checks, CheckFor(s.db.executions, j)) <= 1
  {
    Reachable(calls, digest);
    var s := Run(INITIAL, calls, digest);
    assert Balanced(s, j);
    var n := |s.db.executions|;
    ChecksCount(s.db.checks, s.db.executions, n, j);
    assert s.db.checks[..n] == s.db.checks && s.db.executions[..n] == s.db.executions;
  }

  function KeptOnVersion(js: seq<Job>, v: nat): Write -> bool {
    (w: Write) => w.kept && w.job < |js| && js[w.job].version == v
  }

  /** Writes on a version are the writes of its one job. */
  lemma {:induction false} KeptByJob(trace: seq<Write>, js: seq<Job>, v: nat, j: nat)
    requires j < |js| && js[j].version == v && forall a, b | 0 <= a < b < |js| :: js[a].version != js[b].version
    ensures Count(trace, KeptOnVersion(js, v)) == Count(trace, KeptFor(j))
  {
    if trace != [] { KeptByJob(trace[..|trace| - 1], js, v, j); }
  }

  lemma {:induction false} NoJobNoWrite(trace: seq<Write>, js: seq<Job>, v: nat)
    requires forall i | 0 <= i < |js| :: js[i].version != v
    ensures Count(trace, KeptOnVersion(js, v)) == 0
  {
    if trace != [] { NoJobNoWrite(trace[..|trace| - 1], js, v); }
  }

  /** A plan version is applied to the device at most once. */
  lemma OneWritePerVersion(calls: seq<Call>, digest: Plan -> string, v: nat)
    ensures var s := Run(INITIAL, calls, digest); Count(s.trace, KeptOnVersion(s.db.jobs, v)) <= 1
  {
    Reachable(calls, digest);
    var s := Run(INITIAL, calls, digest);
    var job := JobOf(s.db.jobs, v);
    if job.Some? {
      KeptByJob(s.trace, s.db.jobs, v, job.value);
      assert Balanced(s, job.value);
    } else {
      NoJobNoWrite(s.trace, s.db.jobs, v);
    }
  }

  // ----- writes whose transaction was rolled back -----

  /**
    After the intent record was flushed, nothing failed: the device accepted the write, read back, and the transaction
    committed.
  */
  predicate Completes(env: Env) { env.setOk && env.after.Some? && env.commitOk }

  /**
    An execute call leaves a device write without a committed intent exactly when the job was executable and something
    failed after the flush.
  */
  lemma OrphanIff(s: State, j: nat, env: Env)
    ensures var t := ExecuteJob(s, j, env).0.trace;
      |t| > |s.trace| && !t[|t| - 1].kept <==> Executable(s.db, j) && env.before.Some? && env.auditOk && !Completes(env)
    ensures Executable(s.db, j) && env.before.Some? && env.auditOk && !Completes(env)
      ==> ExecuteJob(s, j, env).0 == s.(trace := s.trace + [WriteFor(s.db, j, env.before.value, false)])
  {
  }

  predicate CallCompletes(c: Call) {
    match c
    case CallApprove(_, _, _, env) => Completes(env)
    case CallExecute(_, env) => Completes(env)
    case _ => true
  }

  lemma StepKeepsWrites(s: State, c: Call, digest: Plan -> string)
    requires CallCompletes(c) && forall w | w in s.trace :: w.kept
    ensures forall w | w in Step(s, c, digest).0.trace :: w.kept
  {
    hide Executable, Precheck, CommitExecution, CommitReconcile, LatestApproval, JobOf, Newest, Enqueue, ExecutionOf;
  }

  /** If every call completes, every device write is kept, so the per-job counts cover every write. */
  lemma {:induction false} CompletedRunsKeepEveryWrite(s: State, calls: seq<Call>, digest: Plan -> string)
    requires forall c | c in calls :: CallCompletes(c)
    requires forall w | w in s.trace :: w.kept
    ensures forall w | w in Run(s, calls, digest).trace :: w.kept
    decreases |calls|
  {
    if calls != [] {
      assert CallCompletes(calls[0]);
      StepKeepsWrites(s, calls[0], digest);
      CompletedRunsKeepEveryWrite(Step(s, calls[0], digest).0, calls[1..], digest);
    }
  }

  const LINK_PLAN := Plan(map["action" := "set_admin_state", "value" := "enable", "node" := "leaf1",
    "interface" := "ethernet-1/1"], None)

  function Enqueued(d: string): Db {
    Db([Version(0, 1, LINK_PLAN, d)], [Decision(0, d, "ada", Approve)], [Job(0, d, Pending)], [], [], [])
  }

  lemma EnqueuedIsExecutable(d: string)
    ensures Executable(Enqueued(d), 0)
  {
    assert "ethernet-1/1"[0] != "mgmt"[0];
    assert !OnManagement(LINK_PLAN) && Allowlisted(LINK_PLAN);
    assert Enqueued(d).versions[0].plan == LINK_PLAN;
  }

  lemma RunPair(s: State, a: Call, b: Call, more: seq<Call>, digest: Plan -> string)
    ensures Run(s, [a, b] + more, digest) == Run(Step(Step(s, a, digest).0, b, digest).0, more, digest)
  {
    var calls := [a, b] + more;
    assert calls[1..] == [b] + more && calls[1..][1..] == more;
  }

  lemma DraftFirst(digest: Plan -> string)
    ensures DraftPlan(INITIAL, 0, LINK_PLAN, digest).0
      == State(Db([Version(0, 1, LINK_PLAN, digest(LINK_PLAN))], [], [], [], [], []), [])
  {
  }

  lemma ApproveFirst(d: string, env: Env)
    ensures ApproveAndExecute(State(Db([Version(0, 1, LINK_PLAN, d)], [], [], [], [], []), []), 0, "ada", true, env).0
         == ExecuteJob(State(Enqueued(d), []), 0, env).0
  {
    var db := Db([Version(0, 1, LINK_PLAN, d)], [], [], [], [], []);
    assert [] + [Decision(0, d, "ada", Approve)] == [Decision(0, d, "ada", Approve)];
    assert [] + [Job(0, d, Pending)] == [Job(0, d, Pending)];
    assert Enqueue(db, 0, "ada") == Some(Enqueued(d));
  }

  /** Drafting and approving the first plan of incident 0 is the execution of job 0 on the enqueued tables. */
  lemma DraftThenApprove(digest: Plan -> string, env: Env, more: seq<Call>)
    ensures Run(INITIAL, [CallDraft(0, LINK_PLAN), CallApprove(0, "ada", true, env)] + more, digest)
         == Run(ExecuteJob(State(Enqueued(digest(LINK_PLAN)), []), 0, env).0, more, digest)
  {
    RunPair(INITIAL, CallDraft(0, LINK_PLAN), CallApprove(0, "ada", true, env), more, digest);
    DraftFirst(digest);
    ApproveFirst(digest(LINK_PLAN), env);
  }

  /** A read-back that raises rolls back the intent record but not the device: a retry writes a second time. */
  lemma RetryAfterAbortWritesTwice(digest: Plan -> string)
    ensures var lost := Env(Some("down"), true, true, None, true);
      var good := Env(Some("down"), true, true, Some("up"), true);
      var s := Run(INITIAL, [CallDraft(0, LINK_PLAN), CallApprove(0, "ada", true, lost)] + [CallExecute(0, good)],
        digest);
      && |s.trace| == 2 && s.trace[0].job == s.trace[1].job == 0 && !s.trace[0].kept
      && Count(s.db.audit, IntentFor(0)) == 1
  {
    hide Inv, ExecuteJob, Balanced, Executable;
    var lost := Env(Some("down"), true, true, None, true);
    var good := Env(Some("down"), true, true, Some("up"), true);
    var calls := [CallDraft(0, LINK_PLAN), CallApprove(0, "ada", true, lost)] + [CallExecute(0, good)];
    DraftThenApprove(digest, lost, [CallExecute(0, good)]);
    AbortThenRetry(digest(LINK_PLAN), lost, good);
    var aborted := ExecuteJob(State(Enqueued(digest(LINK_PLAN)), []), 0, lost).0;
    var s := ExecuteJob(aborted, 0, good).0;
    assert Run(s, [], digest) == s;
  }

  lemma AbortThenRetry(d: string, lost: Env, good: Env)
    requires lost == Env(Some("down"), true, true, None, true)
    requires good == Env(Some("down"), true, true, Some("up"), true)
    ensures var s := ExecuteJob(ExecuteJob(State(Enqueued(d), []), 0, lost).0, 0, good).0;
      && |s.trace| == 2 && s.trace[0].job == s.trace[1].job == 0 && !s.trace[0].kept
      && Count(s.db.audit, IntentFor(0)) == 1
  {
    hide Executable, Precheck;
    EnqueuedIsExecutable(d);
    var first := WriteFor(Enqueued(d), 0, "down", false);
    var aborted := ExecuteJob(State(Enqueued(d), []), 0, lost).0;
    assert aborted == State(Enqueued(d), [first]) by { assert [] + [first] == [first]; }
    var intent, applied := Intent(0, "down", "enable"), Applied(0, "down", "up", Succeeded);
    assert ExecuteJob(aborted, 0, good).0.db.audit == [intent, applied];
    assert [intent, applied][..1] == [intent] && [intent][..0] == [];
  }

  // ----- the version chain -----

  /** An incident's version numbers are exactly 1, 2, ..., k. */
  lemma {:induction false} NumbersAreGapless(vs: seq<Version>, incident: nat, n: int, digest: Plan -> string)
    requires VersionsOk(vs, digest)
    ensures (exists v | v in vs :: v.incident == incident && v.number == n)
      <==> 1 <= n <= Count(vs, OfIncident(incident))
  {
    if vs != [] {
      var last := |vs| - 1;
      VersionsPrefix(vs, last, digest);
      NumbersAreGapless(vs[..last], incident, n, digest);
      assert NumberedNext(vs, last);
      assert forall v :: v in vs <==> v in vs[..last] || v == vs[last];
    }
  }

  /** Over every run: gapless numbers per incident, distinct digests, and every decision names its version's digest. */
  lemma VersionChain(calls: seq<Call>, digest: Plan -> string, incident: nat, n: int)
    ensures var db := Run(INITIAL, calls, digest).db;
      && ((exists v | v in db.versions :: v.incident == incident && v.number == n)
         <==> 1 <= n <= Count(db.versions, OfIncident(incident)))
      && (forall i, j | 0 <= i < j < |db.versions| :: db.versions[i].digest != db.versions[j].digest)
      && (forall i | 0 <= i < |db.decisions| :: db.decisions[i].version < |db.versions|
            && db.decisions[i].digest == db.versions[db.decisions[i].version].digest)
  {
    Reachable(calls, digest);
    NumbersAreGapless(Run(INITIAL, calls, digest).db.versions, incident, n, digest);
  }

  /** A user's first decision on a version is final: later calls neither change it nor add another. */
  lemma FirstDecisionIsFinal(calls: seq<Call>, more: seq<Call>, digest: Plan -> string, i: nat)
    ensures var s := Run(INITIAL, calls, digest); var later := Run(s, more, digest);
      i < |s.db.decisions| ==>
        && i < |later.db.decisions| && later.db.decisions[i] == s.db.decisions[i]
        && forall k | 0 <= k < |later.db.decisions| && k != i ::
             later.db.decisions[k].version != s.db.decisions[i].version
               || later.db.decisions[k].user != s.db.decisions[i].user
  {
    Reachable(calls, digest);
    RunKeepsInv(Run(INITIAL, calls, digest), more, digest);
  }

  lemma ExecuteKeepsDecisions(s: State, j: nat, env: Env)
    ensures ExecuteJob(s, j, env).0.db.decisions == s.db.decisions
    ensures ExecuteJob(s, j, env).0.db.versions == s.db.versions
  {
  }

  /** A new approval can only come from an approve call on its own incident, on that incident's newest version. */
  lemma ApproveAddsOne(s: State, incident: nat, user: string, enqueueOk: bool, env: Env, d: Decision)
    requires d in ApproveAndExecute(s, incident, user, enqueueOk, env).0.db.decisions && d !in s.db.decisions
    ensures Newest(s.db.versions, incident) == Some(d.version)
  {
    var newest := Newest(s.db.versions, incident);
    var r := Enqueue(s.db, newest.value, user);
    var s1 := s.(db := r.value);
    if JobOf(s1.db.jobs, newest.value).Some? { ExecuteKeepsDecisions(s1, JobOf(s1.db.jobs, newest.value).value, env); }
  }

  lemma NewApprovals(s: State, c: Call, digest: Plan -> string, d: Decision)
    requires d in Step(s, c, digest).0.db.decisions && d !in s.db.decisions && d.verdict == Approve
    ensures c.CallApprove? && Newest(s.db.versions, c.incident) == Some(d.version)
  {
    match c
    case CallApprove(incident, user, enqueueOk, env) => ApproveAddsOne(s, incident, user, enqueueOk, env, d);
    case CallExecute(job, env) => ExecuteKeepsDecisions(s, job, env);
    case _ =>
  }

  ghost predicate Unapproved(db: Db, v: nat, incident: nat) {
    && v < |db.versions| && db.versions[v].incident == incident
    && forall d | d in db.decisions :: d.version == v ==> d.verdict == Reject
  }

  lemma {:induction false} StaysUnapproved(s: State, calls: seq<Call>, v: nat, incident: nat, digest: Plan -> string)
    requires Inv(s, digest) && Unapproved(s.db, v, incident)
    requires forall c | c in calls :: !(c.CallApprove? && c.incident == incident)
    ensures Unapproved(Run(s, calls, digest).db, v, incident)
    decreases |calls|
  {
    if calls != [] {
      var c := calls[0];
      var s' := Step(s, c, digest).0;
      StepKeepsInv(s, c, digest);
      forall d | d in s'.db.decisions && d.version == v ensures d.verdict == Reject {
        if d !in s.db.decisions && d.verdict == Approve { NewApprovals(s, c, digest, d); }
      }
      StaysUnapproved(s', calls[1..], v, incident, digest);
    }
  }

  /**
    After an edit the incident's newest version is the edited plan; it is unapproved and untouched until a new approve
    call on the incident.
  */
  lemma EditUnapproves(calls: seq<Call>, incident: nat, more: seq<Call>, digest: Plan -> string)
    requires EditPlan(Run(INITIAL, calls, digest), incident, digest).1.Drafted?
    requires forall c | c in more :: !(c.CallApprove? && c.incident == incident)
    ensures var edited := EditPlan(Run(INITIAL, calls, digest), incident, digest).0;
      var v := |edited.db.versions| - 1;
      var later := Run(edited, more, digest);
      && Newest(edited.db.versions, incident) == Some(v)
      && !Approved(later.db, v)
      && forall w | w in later.trace :: w.job < |later.db.jobs| && later.db.jobs[w.job].version != v
  {
    var s := Run(INITIAL, calls, digest);
    var v := |s.db.versions|;
    Reachable(calls, digest);
    EditedIsUnapproved(s, incident, digest);
    EditKeepsInv(s, incident, digest);
    var edited := EditPlan(s, incident, digest).0;
    hide Inv, EditPlan;
    StaysUnapproved(edited, more, v, incident, digest);
    RunKeepsInv(edited, more, digest);
    NoWriteOnUnapproved(Run(edited, more, digest), v, incident, digest);
  }

  lemma EditedIsUnapproved(s: State, incident: nat, digest: Plan -> string)
    requires Inv(s, digest) && EditPlan(s, incident, digest).1.Drafted?
    ensures var edited := EditPlan(s, incident, digest).0; var v := |s.db.versions|;
      |edited.db.versions| == v + 1 && Newest(edited.db.versions, incident) == Some(v)
        && Unapproved(edited.db, v, incident)
  {
    hide ExecutionsOk, Balanced, JobsOk, Authorized, VersionsOk;
    var edited := EditPlan(s, incident, digest).0;
    assert edited.db.versions[..|s.db.versions|] == s.db.versions;
  }

  lemma NoWriteOnUnapproved(s: State, v: nat, incident: nat, digest: Plan -> string)
    requires Inv(s, digest) && Unapproved(s.db, v, incident)
    ensures !Approved(s.db, v) && forall w | w in s.trace :: w.job < |s.db.jobs| && s.db.jobs[w.job].version != v
  {
    hide ExecutionsOk, Balanced, JobsOk, VersionsOk;
    assert !Approved(s.db, v);
    forall w | w in s.trace ensures w.job < |s.db.jobs| && s.db.jobs[w.job].version != v { assert Authorized(s.db, w); }
  }

  /**
    The edited plan is the incident's next version: the same fields, so the same action and target, under a higher
    revision.
  */
  lemma EditKeepsTheAction(s: State, incident: nat, digest: Plan -> string)
    requires Inv(s, digest) && EditPlan(s, incident, digest).1.Drafted?
    ensures var vs, vs' := s.db.versions, EditPlan(s, incident, digest).0.db.versions;
      var old_, new_ := Newest(vs, incident), Newest(vs', incident);
      && old_.Some? && new_.Some? && vs'[new_.value].number == vs[old_.value].number + 1
      && vs'[new_.value].plan.fields == vs[old_.value].plan.fields
      && vs'[new_.value].plan.revision.Some?
      && vs'[new_.value].plan.revision.value
         == 1 + (if vs[old_.value].plan.revision.Some? then vs[old_.value].plan.revision.value else 0)
      && EditPlan(s, incident, digest).1 == Drafted(vs'[new_.value].digest)
  {
    EditedIsUnapproved(s, incident, digest);
    hide Inv;
  }

  /**
    With a digest that tells plans apart, an edit is refused exactly when the very same revised plan is already stored.
  */
  lemma EditRefusedIff(s: State, incident: nat, digest: Plan -> string)
    requires Inv(s, digest) && forall p, q :: digest(p) == digest(q) ==> p == q
    ensures var newest := Newest(s.db.versions, incident); var outcome := EditPlan(s, incident, digest).1;
      && (outcome == Raised(NoPlan) <==> newest.None?)
      && (outcome == Raised(IntegrityError) <==>
            newest.Some? && exists v | v in s.db.versions :: v.plan == Revised(s.db.versions[newest.value].plan))
  {
    hide ExecutionsOk, Balanced, JobsOk, DecisionsOk, Authorized;
    var newest := Newest(s.db.versions, incident);
    if newest.Some? {
      NewestNumber(s.db.versions, incident, digest);
      NumbersAreGapless(s.db.versions, incident, s.db.versions[newest.value].number + 1, digest);
    }
  }

  // ----- the approve call -----

  predicate Decided(db: Db, v: nat, user: string) {
    exists d | d in db.decisions :: d.version == v && d.user == user
  }

  lemma EnqueueApproves(s: State, v: nat, user: string)
    requires v < |s.db.versions|
    ensures LatestApproval(InsertDecision(s.db, Decision(v, s.db.versions[v].digest, user, Approve)).decisions, v).None?
        <==> Decided(s.db, v, user) && LatestApproval(s.db.decisions, v).None?
  {
    var row := Decision(v, s.db.versions[v].digest, user, Approve);
    assert (s.db.decisions + [row])[..|s.db.decisions|] == s.db.decisions;
  }

  lemma ExecuteOutcomes(s: State, j: nat, env: Env, digest: Plan -> string)
    requires Inv(s, digest) && j < |s.db.jobs|
    ensures ExecuteJob(s, j, env).1 !in {Raised(IntegrityError), Raised(NoJob), Raised(NoVersion), Raised(NoPlan),
      Raised(SideDoorRejected)}
  {
  }

  /**
    In every reachable state an approve call never meets a constraint violation or a missing job, and it is refused at
    the side-door guard exactly when its user had already rejected the version and nobody had approved it.
  */
  lemma ApproveOutcomes(s: State, incident: nat, user: string, enqueueOk: bool, env: Env, digest: Plan -> string)
    requires Inv(s, digest)
    ensures var outcome := ApproveAndExecute(s, incident, user, enqueueOk, env).1;
      && outcome !in {Raised(IntegrityError), Raised(NoJob), Raised(NoVersion)}
      && (outcome == Raised(NoPlan) <==> Newest(s.db.versions, incident).None?)
      && (outcome == Raised(SideDoorRejected) <==>
            var newest := Newest(s.db.versions, incident);
            newest.Some? && enqueueOk && Decided(s.db, newest.value, user)
              && LatestApproval(s.db.decisions, newest.value).None?)
  {
    hide Inv, ExecuteJob, LatestApproval, JobOf;
    var newest := Newest(s.db.versions, incident);
    if newest.Some? {
      EnqueueKeepsInv(s, newest.value, user, digest);
      EnqueueApproves(s, newest.value, user);
      var s1 := s.(db := Enqueue(s.db, newest.value, user).value);
      ApprovalBinds(s1, newest.value, digest);
      ExecuteOutcomes(s1, JobOf(s1.db.jobs, newest.value).value, env, digest);
    }
  }

  ghost predicate CallersDecision(before: Db, after: Db, v: nat, user: string, verdict: Verdict) {
    exists d | d in after.decisions ::
      d.version == v && d.user == user && (d in before.decisions || d.verdict == verdict)
  }

  /**
    An approve or reject call leaves its own user's decision on the newest version: the earlier one if there was one,
    otherwise its verdict.
  */
  lemma CallsRecordTheirUser(s: State, incident: nat, user: string, env: Env, digest: Plan -> string)
    requires Inv(s, digest) && Newest(s.db.versions, incident).Some?
    ensures var v := Newest(s.db.versions, incident).value;
      && CallersDecision(s.db, ApproveAndExecute(s, incident, user, true, env).0.db, v, user, Approve)
      && CallersDecision(s.db, RejectPlan(s, incident, user).0.db, v, user, Reject)
  {
    hide Inv, ExecuteJob, LatestApproval, JobOf, Newest, CallersDecision, InsertDecision;
    var v := Newest(s.db.versions, incident).value;
    EnqueueKeepsInv(s, v, user, digest);
    var s1 := s.(db := Enqueue(s.db, v, user).value);
    ExecuteKeepsDecisions(s1, JobOf(s1.db.jobs, v).value, env);
    SameDecisions(s.db, s1.db, ExecuteJob(s1, JobOf(s1.db.jobs, v).value, env).0.db, v, user);
    SameDecisions(s.db, InsertDecision(s.db, Decision(v, s.db.versions[v].digest, user, Approve)), s1.db, v, user);
    RowInserted(s.db, Decision(v, s.db.versions[v].digest, user, Approve));
    RowInserted(s.db, Decision(v, s.db.versions[v].digest, user, Reject));
  }

  lemma SameDecisions(before: Db, a: Db, b: Db, v: nat, user: string)
    requires a.decisions == b.decisions
    ensures CallersDecision(before, a, v, user, Approve) == CallersDecision(before, b, v, user, Approve)
  {
  }

  lemma RowInserted(db: Db, row: Decision)
    ensures CallersDecision(db, InsertDecision(db, row), row.version, row.user, row.verdict)
  {
    if !exists d | d in db.decisions :: d.version == row.version && d.user == row.user {
      assert row in InsertDecision(db, row).decisions;
    }
  }

  lemma ApprovalBinds(s: State, v: nat, digest: Plan -> string)
    requires Inv(s, digest) && v < |s.db.versions|
    ensures var approval := LatestApproval(s.db.decisions, v);
      approval.Some? ==> ApprovalAuthorizesPlan(approval.value, s.db.versions[v].digest)
  {
  }

  // ----- job and execution states -----

  /** Only the six legal pairs are ever seen, and a succeeded execution always had an "up" read. */
  lemma OnlyLegalPairs(calls: seq<Call>, digest: Plan -> string, j: nat)
    ensures var db := Run(INITIAL, calls, digest).db;
      j < |db.jobs| ==>
        LegalPair(db.jobs[j].status, StatusOf(db, j)) && (StatusOf(db, j) == Some(Succeeded) ==> HadUpRead(db.audit, j))
  {
    Reachable(calls, digest);
  }

  /** The recovery check passes exactly on an "up" read-back, and only an ambiguous read-back is ever reinterpreted. */
  lemma RecoveryMatchesReadBack(calls: seq<Call>, digest: Plan -> string, i: nat)
    ensures var db := Run(INITIAL, calls, digest).db;
      i < |db.executions| ==>
        && i < |db.checks| && db.checks[i].execution == i
        && (db.checks[i].passed <==> db.executions[i].after == "up")
        && (db.executions[i].after !in {"", "unknown"}
           ==> (db.executions[i].status == Succeeded <==> db.executions[i].after == "up"))
  {
    Reachable(calls, digest);
  }

  predicate Terminal(status: JobStatus) { status == Completed || status == RetryableFailed }

  lemma JobAfterExecute(s: State, j: nat, env: Env, k: nat, digest: Plan -> string)
    requires Inv(s, digest) && k < |s.db.jobs| && Terminal(s.db.jobs[k].status)
    ensures var db := ExecuteJob(s, j, env).0.db;
      k < |db.jobs| && db.jobs[k] == s.db.jobs[k] && StatusOf(db, k) == StatusOf(s.db, k)
  {
    var db := ExecuteJob(s, j, env).0.db;
    assert LegalPair(s.db.jobs[k].status, StatusOf(s.db, k));
    if db != s.db { assert db.executions[..|s.db.executions|] == s.db.executions; }
  }

  lemma JobAfterReconcile(s: State, j: nat, actual: string, k: nat, digest: Plan -> string)
    requires Inv(s, digest) && j < |s.db.jobs| && s.db.jobs[j].status in {Running, Reconciling}
    requires k < |s.db.jobs| && k != j
    ensures var db := CommitReconcile(s.db, j, actual);
      db.jobs[k] == s.db.jobs[k] && StatusOf(db, k) == StatusOf(s.db, k)
  {
    var e := ExecutionOf(s.db.executions, j);
    assert LegalPair(s.db.jobs[j].status, StatusOf(s.db, j));
    ExecutionOfUpdate(s.db.executions, e.value, ReadBackStatus(actual), k);
  }

  lemma JobAfterEnqueue(s: State, v: nat, user: string, k: nat, digest: Plan -> string)
    requires Inv(s, digest) && v < |s.db.versions| && k < |s.db.jobs|
    ensures var r := Enqueue(s.db, v, user);
      r.Some? && k < |r.value.jobs| && r.value.jobs[k] == s.db.jobs[k] && StatusOf(r.value, k) == StatusOf(s.db, k)
  {
    EnqueueKeepsInv(s, v, user, digest);
  }

  lemma JobAfterApprove(s: State, c: Call, k: nat, digest: Plan -> string)
    requires Inv(s, digest) && c.CallApprove? && k < |s.db.jobs| && Terminal(s.db.jobs[k].status)
    ensures var db := Step(s, c, digest).0.db;
      k < |db.jobs| && db.jobs[k] == s.db.jobs[k] && StatusOf(db, k) == StatusOf(s.db, k)
  {
    hide Inv, StatusOf, ExecuteJob, Enqueue;
    var newest := Newest(s.db.versions, c.incident);
    if newest.Some? && c.enqueueOk {
      JobAfterEnqueue(s, newest.value, c.user, k, digest);
      EnqueueKeepsInv(s, newest.value, c.user, digest);
      var s1 := s.(db := Enqueue(s.db, newest.value, c.user).value);
      JobAfterExecute(s1, JobOf(s1.db.jobs, newest.value).value, c.env, k, digest);
    }
  }

  lemma JobAfterStep(s: State, c: Call, k: nat, digest: Plan -> string)
    requires Inv(s, digest) && k < |s.db.jobs| && Terminal(s.db.jobs[k].status)
    ensures var db := Step(s, c, digest).0.db;
      k < |db.jobs| && db.jobs[k] == s.db.jobs[k] && StatusOf(db, k) == StatusOf(s.db, k)
  {
    hide Inv, ApproveAndExecute, ExecuteJob;
    match c {
      case CallApprove(_, _, _, _) => JobAfterApprove(s, c, k, digest);
      case CallExecute(j, env) => JobAfterExecute(s, j, env, k, digest);
      case CallReconcile(j, actual, commitOk) =>
        if ReconcileJob(s, j, actual, commitOk).1.Resolved? { JobAfterReconcile(s, j, actual.value, k, digest); }
      case _ =>
    }
  }

  /** Completed and retryable_failed jobs never change again, and neither does their execution. */
  lemma {:induction false} TerminalJobsAreAbsorbing(s: State, calls: seq<Call>, k: nat, digest: Plan -> string)
    requires Inv(s, digest) && k < |s.db.jobs| && Terminal(s.db.jobs[k].status)
    ensures var db := Run(s, calls, digest).db;
      k < |db.jobs| && db.jobs[k] == s.db.jobs[k] && StatusOf(db, k) == StatusOf(s.db, k)
    decreases |calls|
  {
    if calls != [] {
      JobAfterStep(s, calls[0], k, digest);
      StepKeepsInv(s, calls[0], digest);
      TerminalJobsAreAbsorbing(Step(s, calls[0], digest).0, calls[1..], k, digest);
    }
  }

  /** The pair that execute and then reconcile reach from the given reads; None is a call that did not get that far. */
  function Witness(job: JobStatus, execution: Option<ExecStatus>): (Option<string>, Option<string>) {
    match job
    case Completed => if execution == Some(Failed) then (Some("down"), Some("up")) else (Some("up"), None)
    case Reconciling => if execution == Some(Failed) then (Some("down"), None) else (Some("unknown"), None)
    case RetryableFailed => (Some("down"), Some("down"))
    case _ => (None, None)
  }

  function WitnessRun(after: Option<string>, actual: Option<string>): seq<Call> {
    [CallDraft(0, LINK_PLAN), CallApprove(0, "ada", true, Env(Some("down"), true, true, after, true))]
    + [CallReconcile(0, actual, true)]
  }

  /** One execution of the enqueued job, and its reconciliation. */
  lemma ExecuteThenReconcile(d: string, after: string, actual: string)
    ensures var db := CommitExecution(Enqueued(d), 0, "down", after);
      var status := ReadBackStatus(after);
      && |db.jobs| == 1 && StatusOf(db, 0) == Some(status)
      && db.jobs[0].status == (if status == Succeeded then Completed else Reconciling)
      && |CommitReconcile(db, 0, actual).jobs| == 1
      && StatusOf(CommitReconcile(db, 0, actual), 0)
         == Some(if status == OutcomeUnknown && ReadBackStatus(actual) != OutcomeUnknown then ReadBackStatus(actual)
           else status)
  {
    var db := CommitExecution(Enqueued(d), 0, "down", after);
    assert db.executions == [Execution(0, ReadBackStatus(after), "down", after)];
    ExecutionOfUpdate(db.executions, 0, ReadBackStatus(actual), 0);
  }

  lemma ExecutedOnce(d: string, after: Option<string>)
    ensures ExecuteJob(State(Enqueued(d), []), 0, Env(Some("down"), true, true, after, true)).0.db
         == if after.Some? then CommitExecution(Enqueued(d), 0, "down", after.value) else Enqueued(d)
  {
    EnqueuedIsExecutable(d);
  }

  function Witnessed(d: string, after: Option<string>, actual: Option<string>): Db {
    if after.None? then Enqueued(d)
    else
      var executed := CommitExecution(Enqueued(d), 0, "down", after.value);
      if actual.None? then executed else CommitReconcile(executed, 0, actual.value)
  }

  /** The tables after drafting, approving and reconciling once, by what the two reads answered. */
  lemma WitnessRuns(after: Option<string>, actual: Option<string>, digest: Plan -> string)
    requires after.None? ==> actual.None?
    requires actual.Some? ==> ReadBackStatus(after.value) != Succeeded
    ensures Run(INITIAL, WitnessRun(after, actual), digest).db == Witnessed(digest(LINK_PLAN), after, actual)
  {
    hide ExecuteJob, ReconcileJob, Witnessed;
    var d := digest(LINK_PLAN);
    var env := Env(Some("down"), true, true, after, true);
    var reconcile := CallReconcile(0, actual, true);
    DraftThenApprove(digest, env, [reconcile]);
    var s1 := ExecuteJob(State(Enqueued(d), []), 0, env).0;
    ReconciledOnce(s1, d, after, actual) by { ExecutedOnce(d, after); }
    assert [reconcile][1..] == [];
    assert Run(s1, [reconcile], digest) == Run(Step(s1, reconcile, digest).0, [], digest);
  }

  lemma ReconciledOnce(s: State, d: string, after: Option<string>, actual: Option<string>)
    requires s.db == if after.Some? then CommitExecution(Enqueued(d), 0, "down", after.value) else Enqueued(d)
    requires after.None? ==> actual.None?
    requires actual.Some? ==> ReadBackStatus(after.value) != Succeeded
    ensures ReconcileJob(s, 0, actual, true).0.db == Witnessed(d, after, actual)
  {
    if actual.Some? { ExecuteThenReconcile(d, after.value, actual.value); }
    LinkPlanFields();
  }

  lemma LinkPlanFields()
    ensures "node" in LINK_PLAN.fields && "interface" in LINK_PLAN.fields
  {
  }

  /** Every legal pair is reached, so the legal pairs are exactly the reachable ones. */
  lemma EveryLegalPairIsReached(job: JobStatus, execution: Option<ExecStatus>, digest: Plan -> string)
    requires LegalPair(job, execution)
    ensures var w := Witness(job, execution); var db := Run(INITIAL, WitnessRun(w.0, w.1), digest).db;
      |db.jobs| == 1 && db.jobs[0].status == job && StatusOf(db, 0) == execution
  {
    hide Run;
    var w := Witness(job, execution);
    var d := digest(LINK_PLAN);
    WitnessRuns(w.0, w.1, digest);
    if w.0.Some? { ExecuteThenReconcile(d, w.0.value, if w.1.Some? then w.1.value else ""); }
  }
}
