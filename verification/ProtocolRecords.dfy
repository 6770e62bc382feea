/** What the audit log says about executions and job states, over every run. */
module ProtocolRecords {
  import opened Sequences
  import opened Protocol
  import opened ProtocolSafety

  /**
    The execution's own intent is on record, and after it the apply record with the same reads and the status they mean.
  */
  ghost predicate Recorded(audit: seq<AuditRow>, e: Execution) {
    exists a: nat, b: nat | a < b < |audit| ::
      audit[a] == Intent(e.job, e.before, "enable")
        && audit[b] == Applied(e.job, e.before, e.after, ReadBackStatus(e.after))
  }

  /** An authoritative read of job j that was neither "up" nor ambiguous. */
  ghost predicate HadDownRead(audit: seq<AuditRow>, j: nat) {
    exists r | r in audit :: r.Reconciled? && r.job == j && ReadBackStatus(r.actual) == Failed && r.resolved == Failed
  }

  /** A completed job had an "up" read, a retryable one a later "not up" read. */
  ghost predicate Backed(audit: seq<AuditRow>, job: Job, j: nat) {
    && (job.status == Completed ==> HadUpRead(audit, j))
    && (job.status == RetryableFailed ==> HadDownRead(audit, j))
    && job.status != Running
  }

  ghost predicate RecordsOk(db: Db) {
    && (forall e | e in db.executions :: Recorded(db.audit, e))
    && (forall j: nat | j < |db.jobs| :: Backed(db.audit, db.jobs[j], j))
  }

  lemma RecordedLater(a: seq<AuditRow>, b: seq<AuditRow>, e: Execution)
    requires a <= b && Recorded(a, e)
    ensures Recorded(b, e)
  {
    var i: nat, k: nat :| i < k < |a| && a[i] == Intent(e.job, e.before, "enable")
                          && a[k] == Applied(e.job, e.before, e.after, ReadBackStatus(e.after));
    assert b[i] == a[i] && b[k] == a[k];
  }

  lemma BackedLater(a: seq<AuditRow>, b: seq<AuditRow>, job: Job, j: nat)
    requires a <= b && Backed(a, job, j)
    ensures Backed(b, job, j)
  {
    if job.status == Completed { UpReadStable(a, b, j); }
    if job.status == RetryableFailed {
      var r :| r in a && r.Reconciled? && r.job == j && ReadBackStatus(r.actual) == Failed && r.resolved == Failed;
      assert r in b;
    }
  }

  lemma ExecutionRecorded(db: Db, j: nat, before: string, after: string)
    requires Executable(db, j) && RecordsOk(db)
    ensures RecordsOk(CommitExecution(db, j, before, after))
  {
    hide Precheck, Recorded, Backed;
    var db' := CommitExecution(db, j, before, after);
    forall e | e in db'.executions ensures Recorded(db'.audit, e) {
      if e in db.executions { RecordedLater(db.audit, db'.audit, e); } else { NewExecution(db, j, before, after, e); }
    }
    forall k: nat | k < |db'.jobs| ensures Backed(db'.audit, db'.jobs[k], k) {
      if k == j { NewStatus(db, j, before, after); } else { BackedLater(db.audit, db'.audit, db.jobs[k], k); }
    }
  }

  lemma NewExecution(db: Db, j: nat, before: string, after: string, e: Execution)
    requires j < |db.jobs| && e == Execution(j, ReadBackStatus(after), before, after)
    ensures Recorded(CommitExecution(db, j, before, after).audit, e)
  {
    var db', n := CommitExecution(db, j, before, after), |db.audit|;
    assert db'.audit[n] == Intent(j, before, "enable")
      && db'.audit[n + 1] == Applied(j, before, after, ReadBackStatus(after));
  }

  lemma NewStatus(db: Db, j: nat, before: string, after: string)
    requires j < |db.jobs|
    ensures var db' := CommitExecution(db, j, before, after); Backed(db'.audit, db'.jobs[j], j)
  {
    var db' := CommitExecution(db, j, before, after);
    assert db'.audit[|db.audit| + 1] in db'.audit;
  }

  lemma ReconcileRecorded(db: Db, j: nat, actual: string)
    requires j < |db.jobs| && RecordsOk(db)
    ensures RecordsOk(CommitReconcile(db, j, actual))
  {
    hide Recorded, Backed, ExecutionOf;
    var db' := CommitReconcile(db, j, actual);
    forall e | e in db'.executions ensures Recorded(db'.audit, e) {
      var i :| 0 <= i < |db'.executions| && db'.executions[i] == e;
      RecordedLater(db.audit, db'.audit, db.executions[i]);
      SameReads(db'.audit, db.executions[i], e);
    }
    forall k: nat | k < |db'.jobs| ensures Backed(db'.audit, db'.jobs[k], k) {
      if k == j { ReconciledStatus(db, j, actual); } else { BackedLater(db.audit, db'.audit, db.jobs[k], k); }
    }
  }

  lemma SameReads(audit: seq<AuditRow>, e: Execution, f: Execution)
    requires e.job == f.job && e.before == f.before && e.after == f.after && Recorded(audit, e)
    ensures Recorded(audit, f)
  {
  }

  lemma ReconciledStatus(db: Db, j: nat, actual: string)
    requires j < |db.jobs|
    ensures var db' := CommitReconcile(db, j, actual); Backed(db'.audit, db'.jobs[j], j)
  {
    var db' := CommitReconcile(db, j, actual);
    assert db'.audit[|db.audit|] in db'.audit;
  }

  lemma ExecuteKeepsRecords(s: State, j: nat, env: Env)
    requires RecordsOk(s.db)
    ensures RecordsOk(ExecuteJob(s, j, env).0.db)
  {
    hide RecordsOk, Precheck, CommitExecution;
    if Executable(s.db, j) && env.before.Some? && env.after.Some? {
      ExecutionRecorded(s.db, j, env.before.value, env.after.value);
    }
  }

  lemma EnqueueKeepsRecords(db: Db, v: nat, user: string)
    requires RecordsOk(db) && v < |db.versions| && Enqueue(db, v, user).Some?
    ensures RecordsOk(Enqueue(db, v, user).value)
  {
    hide Recorded, HadUpRead, HadDownRead;
  }

  lemma ApproveKeepsRecords(s: State, incident: nat, user: string, enqueueOk: bool, env: Env)
    requires RecordsOk(s.db)
    ensures RecordsOk(ApproveAndExecute(s, incident, user, enqueueOk, env).0.db)
  {
    hide RecordsOk, ExecuteJob, Enqueue, LatestApproval, JobOf;
    var newest := Newest(s.db.versions, incident);
    if newest.Some? && Enqueue(s.db, newest.value, user).Some? {
      EnqueueKeepsRecords(s.db, newest.value, user);
      var s1 := s.(db := Enqueue(s.db, newest.value, user).value);
      if JobOf(s1.db.jobs, newest.value).Some? { ExecuteKeepsRecords(s1, JobOf(s1.db.jobs, newest.value).value, env); }
    }
  }

  lemma StepKeepsRecords(s: State, c: Call, digest: Plan -> string)
    requires RecordsOk(s.db)
    ensures RecordsOk(Step(s, c, digest).0.db)
  {
    hide ApproveAndExecute, ExecuteJob, Recorded, Backed, CommitReconcile;
    match c
    case CallApprove(incident, user, enqueueOk, env) => ApproveKeepsRecords(s, incident, user, enqueueOk, env);
    case CallExecute(job, env) => ExecuteKeepsRecords(s, job, env);
    case CallReconcile(job, actual, commitOk) =>
      if ReconcileJob(s, job, actual, commitOk).1.Resolved? { ReconcileRecorded(s.db, job, actual.value); }
    case _ =>
  }

  lemma {:induction false} RunKeepsRecords(s: State, calls: seq<Call>, digest: Plan -> string)
    requires RecordsOk(s.db)
    ensures RecordsOk(Run(s, calls, digest).db)
    decreases |calls|
  {
    hide RecordsOk, Step;
    if calls != [] {
      StepKeepsRecords(s, calls[0], digest);
      RunKeepsRecords(Step(s, calls[0], digest).0, calls[1..], digest);
    }
  }

  /**
    Over every run, each execution's reads and the status they mean are on the audit log, its intent before its apply
    record.
  */
  lemma AuditTellsExecutions(calls: seq<Call>, digest: Plan -> string)
    ensures var db := Run(INITIAL, calls, digest).db; forall e | e in db.executions :: Recorded(db.audit, e)
  {
    RunKeepsRecords(INITIAL, calls, digest);
  }

  /**
    Over every run no job is completed without an authoritative "up" read of it, none is retryable without a read that
    was neither "up" nor ambiguous, and none is left "running".
  */
  lemma JobStatusIsBacked(calls: seq<Call>, digest: Plan -> string, j: nat)
    ensures var db := Run(INITIAL, calls, digest).db; j < |db.jobs| ==> Backed(db.audit, db.jobs[j], j)
  {
    RunKeepsRecords(INITIAL, calls, digest);
  }
}
