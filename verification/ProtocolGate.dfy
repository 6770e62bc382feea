/** What the executor's gate lets through and what its calls do, written out in field values and reads. */
module ProtocolGate {
  import opened Sequences
  import opened Protocol
  import opened ProtocolSafety
  import opened ProtocolTheorems

  /** The latest approve decision on version v carries the version's own digest. */
  ghost predicate ApprovedExactly(db: Db, v: nat)
    requires v < |db.versions|
  {
    exists i: nat | i < |db.decisions| ::
      && db.decisions[i].version == v && db.decisions[i].verdict == Approve
      && db.decisions[i].digest == db.versions[v].digest
      && forall k | i < k < |db.decisions| && db.decisions[k].version == v :: db.decisions[k].verdict != Approve
  }

  /** The plan says to enable an interface that is named and is no management interface. */
  ghost predicate EnablesDataPort(f: map<string, string>) {
    && "action" in f && f["action"] == "set_admin_state"
    && "value" in f && f["value"] == "enable"
    && "node" in f && "interface" in f && !("mgmt" <= f["interface"])
  }

  lemma ApprovedIff(db: Db, v: nat)
    requires v < |db.versions|
    ensures ApprovedExactly(db, v) <==>
      LatestApproval(db.decisions, v).Some? && LatestApproval(db.decisions, v).value.digest == db.versions[v].digest
  {
    var ds, approval := db.decisions, LatestApproval(db.decisions, v);
    if approval.Some? {
      var i: nat :| i < |ds| && ds[i] == approval.value && LastApprovalAt(ds, v, i);
    }
  }

  /** A version passes the gate exactly when it is approved under its own digest and enables a data port. */
  lemma PassesIff(db: Db, v: nat)
    requires v < |db.versions|
    ensures Precheck(db, v).None? <==> ApprovedExactly(db, v) && EnablesDataPort(db.versions[v].plan.fields)
  {
    ApprovedIff(db, v);
    if LatestApproval(db.decisions, v).Some? {
      var i: nat :| i < |db.decisions| && db.decisions[i] == LatestApproval(db.decisions, v).value
        && LastApprovalAt(db.decisions, v, i);
    }
    hide LatestApproval, ApprovedExactly;
  }

  /** Which check refuses it: the approval, then action and value, then the interface, then a missing target. */
  lemma RefusalIs(db: Db, v: nat)
    requires v < |db.versions|
    ensures var f := db.versions[v].plan.fields;
      var allowed := "action" in f && f["action"] == "set_admin_state" && "value" in f && f["value"] == "enable";
      var management := "interface" in f && "mgmt" <= f["interface"];
      && (Precheck(db, v) == Some(NoApproval) <==> !ApprovedExactly(db, v))
      && (Precheck(db, v) == Some(NotAllowlisted) <==> ApprovedExactly(db, v) && !allowed)
      && (Precheck(db, v) == Some(ManagementInterface) <==> ApprovedExactly(db, v) && allowed && management)
      && (Precheck(db, v) == Some(MissingField) <==>
            ApprovedExactly(db, v) && allowed && !management && !("node" in f && "interface" in f))
  {
    ApprovedIff(db, v);
    if LatestApproval(db.decisions, v).Some? {
      var i: nat :| i < |db.decisions| && db.decisions[i] == LatestApproval(db.decisions, v).value
        && LastApprovalAt(db.decisions, v, i);
    }
    hide LatestApproval, ApprovedExactly;
  }

  /** Job j has not been executed and its version passes the gate. */
  ghost predicate MayExecute(db: Db, j: nat) {
    && j < |db.jobs| && db.jobs[j].version < |db.versions|
    && (forall e | e in db.executions :: e.job != j)
    && ApprovedExactly(db, db.jobs[j].version) && EnablesDataPort(db.versions[db.jobs[j].version].plan.fields)
  }

  lemma ExecutableIff(db: Db, j: nat)
    ensures Executable(db, j) <==> MayExecute(db, j)
  {
    if j < |db.jobs| && db.jobs[j].version < |db.versions| {
      PassesIff(db, db.jobs[j].version);
      var e := ExecutionOf(db.executions, j);
      assert e.Some? ==> db.executions[e.value] in db.executions;
      hide Precheck, ExecutionOf, ApprovedExactly, EnablesDataPort;
    }
  }

  /** What a read-back of the device means. */
  ghost predicate Means(read: string, status: ExecStatus) {
    && (status == Succeeded <==> read == "up")
    && (status == OutcomeUnknown <==> read == "" || read == "unknown")
    && (status == Failed <==> read != "up" && read != "" && read != "unknown")
  }

  /** The one write that an execute call of job j with this first read makes. */
  ghost predicate EnablesFor(db: Db, j: nat, before: string, w: Write)
    requires j < |db.jobs| && db.jobs[j].version < |db.versions|
  {
    var f := db.versions[db.jobs[j].version].plan.fields;
    && w.job == j && w.value == "enable"
    && "node" in f && w.node == f["node"] && "interface" in f && w.interface == f["interface"]
    && w.log == db.audit + [Intent(j, before, "enable")] && w.decided == |db.decisions|
  }

  /**
    An execute call touches the device exactly when the job may be executed, the first read works and the intent is
    flushed. The device is then told once to enable the plan's target, whatever happens afterwards.
  */
  lemma ExecuteWrites(s: State, j: nat, env: Env)
    ensures var s' := ExecuteJob(s, j, env).0;
      if MayExecute(s.db, j) && env.before.Some? && env.auditOk then
        && |s'.trace| == |s.trace| + 1 && s'.trace[..|s.trace|] == s.trace
        && EnablesFor(s.db, j, env.before.value, s'.trace[|s.trace|])
        && (s'.trace[|s.trace|].kept <==> env.setOk && env.after.Some? && env.commitOk)
      else s'.trace == s.trace
  {
    ExecutableIff(s.db, j);
    if MayExecute(s.db, j) { assert s.db.versions[s.db.jobs[j].version].plan.fields["value"] == "enable"; }
    hide Precheck, ExecutionOf, ApprovedExactly, ReadBackStatus, CommitExecution;
  }

  /**
    An execute call answers Executed exactly when nothing goes wrong. The answer, the execution, the recovery check, the
    job and the two audit rows then all say what the read-back means; otherwise no table changes.
  */
  lemma ExecuteRecords(s: State, j: nat, env: Env)
    ensures var (s', o) := ExecuteJob(s, j, env);
      && (o.Executed? <==>
            MayExecute(s.db, j) && env.before.Some? && env.auditOk && env.setOk && env.after.Some? && env.commitOk)
      && (!o.Executed? ==> s'.db == s.db)
      && (o.Executed? ==>
            var before, after := env.before.value, env.after.value;
            && Means(after, o.status)
            && s'.db.versions == s.db.versions && s'.db.decisions == s.db.decisions
            && s'.db.executions == s.db.executions + [Execution(j, o.status, before, after)]
            && s'.db.checks == s.db.checks + [RecoveryCheck(|s.db.executions|, after == "up")]
            && s'.db.jobs
               == s.db.jobs[j := s.db.jobs[j].(status := if after == "up" then Completed else Reconciling)]
            && s'.db.audit == s.db.audit + [Intent(j, before, "enable"), Applied(j, before, after, o.status)])
  {
    ExecutableIff(s.db, j);
    hide Precheck, ExecutionOf, MayExecute, WriteFor;
  }

  /** Why an execute call does not answer Executed, in the order in which it finds out. */
  lemma ExecuteRefusals(s: State, j: nat, env: Env)
    requires j < |s.db.jobs| && s.db.jobs[j].version < |s.db.versions|
    ensures var o, v := ExecuteJob(s, j, env).1, s.db.jobs[j].version;
      && (o == DuplicateIgnored <==> exists e | e in s.db.executions :: e.job == j)
      && (o in {Raised(NoApproval), Raised(NotAllowlisted), Raised(ManagementInterface), Raised(MissingField)} <==>
            o != DuplicateIgnored && !MayExecute(s.db, j))
      && (!MayExecute(s.db, j) && o != DuplicateIgnored ==> Precheck(s.db, v) == Some(o.error))
      && (o == Raised(AuditUnavailable) <==> MayExecute(s.db, j) && env.before.Some? && !env.auditOk)
      && (o == Raised(DeviceError) <==>
            MayExecute(s.db, j) && (env.before.None? || (env.auditOk && (!env.setOk || env.after.None?))))
      && (o == Raised(CommitFailed) <==>
            MayExecute(s.db, j) && env.before.Some? && env.auditOk && env.setOk && env.after.Some? && !env.commitOk)
  {
    ExecutableIff(s.db, j);
    var e := ExecutionOf(s.db.executions, j);
    assert e.Some? ==> s.db.executions[e.value] in s.db.executions;
    RefusalIs(s.db, s.db.jobs[j].version);
    hide ExecutionOf, ApprovedExactly, EnablesDataPort, WriteFor, CommitExecution, ReadBackStatus, LatestApproval;
  }

  /**
    A reconcile call resolves a job that is running or reconciling from an authoritative read: up completes it, an
    ambiguous read leaves it reconciling, anything else makes it retryable. Only an execution whose outcome was unknown
    is reinterpreted, and only by a read that is not ambiguous.
  */
  lemma ReconcileRecords(s: State, j: nat, actual: Option<string>, commitOk: bool)
    ensures var (s', o) := ReconcileJob(s, j, actual, commitOk);
      && s'.trace == s.trace
      && (o.Resolved? <==>
            && j < |s.db.jobs| && s.db.jobs[j].status in {Running, Reconciling}
            && s.db.jobs[j].version < |s.db.versions|
            && "node" in s.db.versions[s.db.jobs[j].version].plan.fields
            && "interface" in s.db.versions[s.db.jobs[j].version].plan.fields
            && actual.Some? && commitOk)
      && (!o.Resolved? ==> s'.db == s.db)
      && (o.NothingToReconcile? ==> o.job == s.db.jobs[j].status)
      && (o.Resolved? ==>
            && Means(actual.value, o.status)
            && s'.db.versions == s.db.versions && s'.db.decisions == s.db.decisions && s'.db.checks == s.db.checks
            && s'.db.audit == s.db.audit + [Reconciled(j, actual.value, o.status)]
            && s'.db.jobs == s.db.jobs[j := s.db.jobs[j].(status :=
                 if actual.value == "up" then Completed
                 else if actual.value == "" || actual.value == "unknown" then Reconciling else RetryableFailed)]
            && |s'.db.executions| == |s.db.executions|)
  {
    hide ExecutionOf;
  }

  /** In a reachable state, the execution that a resolved read reinterprets is the job's own, and no other changes. */
  lemma ReconcileExecution(s: State, j: nat, actual: Option<string>, commitOk: bool, digest: Plan -> string, i: nat)
    requires Inv(s, digest) && i < |s.db.executions| && ReconcileJob(s, j, actual, commitOk).1.Resolved?
    ensures var e, e' := s.db.executions[i], ReconcileJob(s, j, actual, commitOk).0.db.executions[i];
      e' == if e.job == j && e.status == OutcomeUnknown && actual.value == "up" then e.(status := Succeeded)
            else if e.job == j && e.status == OutcomeUnknown && actual.value != "" && actual.value != "unknown"
            then e.(status := Failed) else e
  {
    assert ExecutionsOk(s.db);
    hide Balanced, Authorized, VersionsOk, DecisionsOk, JobsOk, Inv;
  }

  /** The tables once an approve call of this user on version v has been recorded and its job enqueued. */
  ghost function ApprovedBy(db: Db, v: nat, user: string): Db
    requires v < |db.versions|
  {
    db.(decisions := if exists d | d in db.decisions :: d.version == v && d.user == user then db.decisions
                     else db.decisions + [Decision(v, db.versions[v].digest, user, Approve)],
        jobs := if exists j | j in db.jobs :: j.version == v then db.jobs
                else db.jobs + [Job(v, db.versions[v].digest, Pending)])
  }

  lemma EnqueueIs(s: State, v: nat, user: string, digest: Plan -> string)
    requires Inv(s, digest) && v < |s.db.versions|
    ensures Enqueue(s.db, v, user) == Some(ApprovedBy(s.db, v, user))
  {
    var d, js, vs := s.db.versions[v].digest, s.db.jobs, s.db.versions;
    assert JobsOk(vs, js) && VersionsOk(vs, digest);
    hide Inv;
    forall x | x in js ensures x.key == d <==> x.version == v {
      var i :| 0 <= i < |js| && js[i] == x;
      assert x.version != v ==> vs[x.version].digest != d;
    }
    hide VersionsOk, JobsOk;
  }

  /**
    An approve call whose first transaction commits records the user's approval of the newest version, unless that user
    has decided on it already, and enqueues the version's one job. Unless no approval is stored then, it answers what
    executing that job answers.
  */
  lemma ApproveRecords(s: State, incident: nat, user: string, env: Env, digest: Plan -> string)
    requires Inv(s, digest) && Newest(s.db.versions, incident).Some?
    ensures var v := Newest(s.db.versions, incident).value;
      var s1 := s.(db := ApprovedBy(s.db, v, user));
      var (s', o) := ApproveAndExecute(s, incident, user, true, env);
      if !ApprovedExactly(s1.db, v) then s' == s1 && o == Raised(SideDoorRejected)
      else exists j: nat | j < |s1.db.jobs| && s1.db.jobs[j].version == v :: (s', o) == ExecuteJob(s1, j, env)
  {
    var v := Newest(s.db.versions, incident).value;
    EnqueueIs(s, v, user, digest);
    var db1 := ApprovedBy(s.db, v, user);
    ApprovedIff(db1, v);
    var a := LatestApproval(db1.decisions, v);
    var job := JobOf(db1.jobs, v);
    assert exists j | j in db1.jobs :: j.version == v by {
      if !exists j | j in s.db.jobs :: j.version == v { assert db1.jobs[|s.db.jobs|] in db1.jobs; }
    }
    assert job.Some?;
    hide Inv, LatestApproval, JobOf, ExecuteJob, ApprovedBy, ApprovedExactly, Enqueue;
    assert a.Some? ==> a.value.verdict == Approve;
  }

  /**
    Over every run, each device write enables an interface that its plan names and that is no management interface; the
    plan says set_admin_state and enable, one of the decisions stored before the write approves it under its own digest,
    and the last row on the log the write saw is its own intent.
  */
  lemma WritesEnableDataPorts(calls: seq<Call>, digest: Plan -> string, w: Write)
    requires w in Run(INITIAL, calls, digest).trace
    ensures var db := Run(INITIAL, calls, digest).db;
      && w.job < |db.jobs| && db.jobs[w.job].version < |db.versions|
      && var version := db.versions[db.jobs[w.job].version];
      && EnablesDataPort(version.plan.fields) && !("mgmt" <= w.interface) && w.value == "enable"
      && w.node == version.plan.fields["node"] && w.interface == version.plan.fields["interface"]
      && (exists i: nat | i < w.decided && i < |db.decisions| ::
            && db.decisions[i].version == db.jobs[w.job].version && db.decisions[i].verdict == Approve
            && db.decisions[i].digest == version.digest)
      && w.log != [] && w.log[|w.log| - 1].Intent? && w.log[|w.log| - 1].job == w.job
      && w.log[|w.log| - 1].value == "enable"
  {
    Reachable(calls, digest);
    assert Authorized(Run(INITIAL, calls, digest).db, w);
  }
}
