/**
 The approval and execution protocol: plan versions, approval decisions, jobs, executions, recovery checks and
 audit rows are append-only tables with unique constraints; the device is a trace of writes.

 A row's primary key is its position in its table. A call that raises rolls its transaction back, but a device
 write that already happened stays in the trace; such a write is marked as not kept.
 */
module Protocol {
  import opened Sequences

  // ----- tables -----

  /** A plan document: its string fields, and the revision counter that an edit bumps. */
  datatype Plan = Plan(fields: map<string, string>, revision: Option<int>)

  datatype Version = Version(incident: nat, number: int, plan: Plan, digest: string)

  datatype Verdict = Approve | Reject

  datatype Decision = Decision(version: nat, digest: string, user: string, verdict: Verdict)

  datatype JobStatus = Pending | Running | Reconciling | Completed | RetryableFailed

  /** key stands for the idempotency key "job:" + digest. */
  datatype Job = Job(version: nat, key: string, status: JobStatus)

  datatype ExecStatus = Succeeded | Failed | OutcomeUnknown

  datatype Execution = Execution(job: nat, status: ExecStatus, before: string, after: string)

  datatype RecoveryCheck = RecoveryCheck(execution: nat, passed: bool)

  datatype AuditRow =
    | Intent(job: nat, before: string, value: string)
    | Applied(job: nat, before: string, after: string, status: ExecStatus)
    | Reconciled(job: nat, actual: string, resolved: ExecStatus)

  datatype Db = Db(
    versions: seq<Version>, decisions: seq<Decision>, jobs: seq<Job>,
    executions: seq<Execution>, checks: seq<RecoveryCheck>, audit: seq<AuditRow>)

  /**
   One device mutation. log is the audit log as the executor had flushed it by then, decided is how many decisions were
   stored by then, and kept says that the write's own transaction committed afterwards.
   */
  datatype Write = Write(
    job: nat, node: string, interface: string, value: string, log: seq<AuditRow>, decided: nat, kept: bool)

  datatype State = State(db: Db, trace: seq<Write>)

  const INITIAL := State(Db([], [], [], [], [], []), [])

  datatype Error =
    | NoPlan | NoJob | NoVersion | NoApproval | NotAllowlisted | ManagementInterface | MissingField
    | SideDoorRejected | AuditUnavailable | DeviceError | IntegrityError | CommitFailed

  datatype Outcome =
    | Executed(status: ExecStatus) | DuplicateIgnored
    | Resolved(status: ExecStatus) | NothingToReconcile(job: JobStatus)
    | Drafted(digest: string) | Recorded | Raised(error: Error)

  /** What the world answers during one execute call: None is a device call that raises. */
  datatype Env = Env(before: Option<string>, auditOk: bool, setOk: bool, after: Option<string>, commitOk: bool)

  // ----- queries -----

  /** The incident's version with the highest number (ORDER BY plan_version DESC, first row). */
  function Newest(vs: seq<Version>, incident: nat): (r: Option<nat>)
    ensures r.Some? ==> r.value < |vs| && vs[r.value].incident == incident
    ensures r.Some? ==> forall i | 0 <= i < |vs| && vs[i].incident == incident :: vs[i].number <= vs[r.value].number
    ensures r.None? ==> forall i | 0 <= i < |vs| :: vs[i].incident != incident
  {
    if vs == [] then None else
    var n := |vs| - 1;
    var rest := Newest(vs[..n], incident);
    if vs[n].incident == incident && (rest.None? || vs[rest.value].number <= vs[n].number) then Some(n) else rest
  }

  /** Decision i approves the version, and no later one does. */
  ghost predicate LastApprovalAt(ds: seq<Decision>, version: nat, i: nat)
    requires i < |ds|
  {
    && ds[i].version == version && ds[i].verdict == Approve
    && forall k | i < k < |ds| && ds[k].version == version :: ds[k].verdict != Approve
  }

  /** The latest approve decision on a version. */
  function LatestApproval(ds: seq<Decision>, version: nat): (r: Option<Decision>)
    ensures r.Some? ==> exists i: nat | i < |ds| :: ds[i] == r.value && LastApprovalAt(ds, version, i)
    ensures r.None? ==> forall i | 0 <= i < |ds| && ds[i].version == version :: ds[i].verdict != Approve
  {
    if ds == [] then None else
    var last := ds[|ds| - 1];
    assert forall i | 0 <= i < |ds| - 1 :: ds[i] == ds[..|ds| - 1][i];
    if last.version == version && last.verdict == Approve then Some(last)
    else LatestApproval(ds[..|ds| - 1], version)
  }

  function JobOf(js: seq<Job>, version: nat): (r: Option<nat>)
    ensures r.Some? ==> r.value < |js| && js[r.value].version == version
    ensures r.None? ==> forall i | 0 <= i < |js| :: js[i].version != version
  {
    if js == [] then None
    else if js[|js| - 1].version == version then Some(|js| - 1)
    else JobOf(js[..|js| - 1], version)
  }

  function ExecutionOf(es: seq<Execution>, job: nat): (r: Option<nat>)
    ensures r.Some? ==> r.value < |es| && es[r.value].job == job
    ensures r.None? ==> forall i | 0 <= i < |es| :: es[i].job != job
  {
    if es == [] then None
    else if es[|es| - 1].job == job then Some(|es| - 1)
    else ExecutionOf(es[..|es| - 1], job)
  }

  // ----- the shared gate -----

  /** An approve decision bound to exactly this digest. */
  predicate ApprovalAuthorizesPlan(d: Decision, planDigest: string) {
    d.verdict == Approve && d.digest == planDigest
  }

  function Get(p: Plan, field: string): Option<string> {
    if field in p.fields then Some(p.fields[field]) else None
  }

  predicate Allowlisted(p: Plan) {
    Get(p, "action") == Some("set_admin_state") && Get(p, "value") == Some("enable")
  }

  predicate OnManagement(p: Plan) {
    Get(p, "interface").Some? && "mgmt" <= Get(p, "interface").value
  }

  /** None when version v may be executed, otherwise the error that stops it before the device is touched. */
  function Precheck(db: Db, v: nat): Option<Error>
    requires v < |db.versions|
  {
    var approval := LatestApproval(db.decisions, v);
    var plan := db.versions[v].plan;
    if approval.None? || !ApprovalAuthorizesPlan(approval.value, db.versions[v].digest) then Some(NoApproval)
    else if !Allowlisted(plan) then Some(NotAllowlisted)
    else if OnManagement(plan) then Some(ManagementInterface)
    else if "node" !in plan.fields || "interface" !in plan.fields then Some(MissingField)
    else None
  }

  // ----- constrained inserts -----

  /** None is a violated unique constraint: (incident, number) or digest. */
  function InsertVersion(db: Db, row: Version): Option<Db> {
    if exists v | v in db.versions :: v.digest == row.digest || (v.incident == row.incident && v.number == row.number)
    then None
    else Some(db.(versions := db.versions + [row]))
  }

  /** Insert unless the user already decided on this version. */
  function InsertDecision(db: Db, row: Decision): Db {
    if exists d | d in db.decisions :: d.version == row.version && d.user == row.user then db
    else db.(decisions := db.decisions + [row])
  }

  /** Insert unless the idempotency key exists; None is a clash on the version alone. */
  function InsertJob(db: Db, row: Job): Option<Db> {
    if exists j | j in db.jobs :: j.key == row.key then Some(db)
    else if exists j | j in db.jobs :: j.version == row.version then None
    else Some(db.(jobs := db.jobs + [row]))
  }

  // ----- calls, as functions of the state -----

  function ReadBackStatus(after: string): ExecStatus {
    if after == "up" then Succeeded else if after == "" || after == "unknown" then OutcomeUnknown else Failed
  }

  /** The tables after an execution of job j that committed. */
  function CommitExecution(db: Db, j: nat, before: string, after: string): Db
    requires j < |db.jobs|
  {
    var status := ReadBackStatus(after);
    db.(jobs := db.jobs[j := db.jobs[j].(status := if status == Succeeded then Completed else Reconciling)],
        executions := db.executions + [Execution(j, status, before, after)],
        checks := db.checks + [RecoveryCheck(|db.executions|, status == Succeeded)],
        audit := db.audit + [Intent(j, before, "enable"), Applied(j, before, after, status)])
  }

  /** Everything that must hold before execute_job touches the device. */
  predicate Executable(db: Db, j: nat) {
    && j < |db.jobs|
    && db.jobs[j].version < |db.versions|
    && ExecutionOf(db.executions, j).None?
    && Precheck(db, db.jobs[j].version).None?
  }

  function WriteFor(db: Db, j: nat, before: string, kept: bool): Write
    requires Executable(db, j)
  {
    var plan := db.versions[db.jobs[j].version].plan;
    Write(j, plan.fields["node"], plan.fields["interface"], plan.fields["value"],
          db.audit + [Intent(j, before, plan.fields["value"])], |db.decisions|, kept)
  }

  function ExecuteJob(s: State, j: nat, env: Env): (State, Outcome) {
    if j >= |s.db.jobs| then (s, Raised(NoJob))
    else if s.db.jobs[j].version >= |s.db.versions| then (s, Raised(NoVersion))
    else if ExecutionOf(s.db.executions, j).Some? then (s, DuplicateIgnored)
    else
      var refused := Precheck(s.db, s.db.jobs[j].version);
      if refused.Some? then (s, Raised(refused.value))
      else if env.before.None? then (s, Raised(DeviceError))
      else if !env.auditOk then (s, Raised(AuditUnavailable))
      else if !env.setOk || env.after.None? then
        (s.(trace := s.trace + [WriteFor(s.db, j, env.before.value, false)]), Raised(DeviceError))
      else if !env.commitOk then
        (s.(trace := s.trace + [WriteFor(s.db, j, env.before.value, false)]), Raised(CommitFailed))
      else
        (State(CommitExecution(s.db, j, env.before.value, env.after.value),
          s.trace + [WriteFor(s.db, j, env.before.value, true)]),
         Executed(ReadBackStatus(env.after.value)))
  }

  /** The tables after reconciling job j against an authoritative read. */
  function CommitReconcile(db: Db, j: nat, actual: string): Db
    requires j < |db.jobs|
  {
    var resolved := ReadBackStatus(actual);
    var next := match resolved
      case Succeeded => Completed
      case OutcomeUnknown => Reconciling
      case Failed => RetryableFailed;
    var e := ExecutionOf(db.executions, j);
    db.(jobs := db.jobs[j := db.jobs[j].(status := next)],
        executions := if e.Some? && db.executions[e.value].status == OutcomeUnknown && resolved != OutcomeUnknown
                      then db.executions[e.value := db.executions[e.value].(status := resolved)]
                      else db.executions,
        audit := db.audit + [Reconciled(j, actual, resolved)])
  }

  function ReconcileJob(s: State, j: nat, actual: Option<string>, commitOk: bool): (State, Outcome) {
    if j >= |s.db.jobs| then (s, Raised(NoJob))
    else if s.db.jobs[j].status !in {Running, Reconciling} then (s, NothingToReconcile(s.db.jobs[j].status))
    else if s.db.jobs[j].version >= |s.db.versions| then (s, Raised(NoVersion))
    else
      var plan := s.db.versions[s.db.jobs[j].version].plan;
      if "node" !in plan.fields || "interface" !in plan.fields then (s, Raised(MissingField))
      else if actual.None? then (s, Raised(DeviceError))
      else if !commitOk then (s, Raised(CommitFailed))
      else (s.(db := CommitReconcile(s.db, j, actual.value)), Resolved(ReadBackStatus(actual.value)))
  }

  /**
    The first transaction of approve_and_execute: record the approval and enqueue the job. None is a violated
    constraint.
  */
  function Enqueue(db: Db, v: nat, user: string): Option<Db>
    requires v < |db.versions|
  {
    var digest := db.versions[v].digest;
    InsertJob(InsertDecision(db, Decision(v, digest, user, Approve)), Job(v, digest, Pending))
  }

  function ApproveAndExecute(s: State, incident: nat, user: string, commitOk: bool, env: Env): (State, Outcome) {
    var newest := Newest(s.db.versions, incident);
    if newest.None? then (s, Raised(NoPlan))
    else
      var v := newest.value;
      var enqueued := Enqueue(s.db, v, user);
      if enqueued.None? then (s, Raised(IntegrityError))
      else if !commitOk then (s, Raised(CommitFailed))
      else
        var s1 := s.(db := enqueued.value);
        var approval := LatestApproval(s1.db.decisions, v);
        var job := JobOf(s1.db.jobs, v);
        if approval.None? || !ApprovalAuthorizesPlan(approval.value, s.db.versions[v].digest)
        then (s1, Raised(SideDoorRejected))
        else if job.None? then (s1, Raised(NoJob))
        else ExecuteJob(s1, job.value, env)
  }

  function RejectPlan(s: State, incident: nat, user: string): (State, Outcome) {
    var newest := Newest(s.db.versions, incident);
    if newest.None? then (s, Recorded)
    else
      var row := Decision(newest.value, s.db.versions[newest.value].digest, user, Reject);
      (s.(db := InsertDecision(s.db, row)), Recorded)
  }

  function Revised(p: Plan): Plan {
    p.(revision := Some((if p.revision.Some? then p.revision.value else 0) + 1))
  }

  function EditPlan(s: State, incident: nat, digest: Plan -> string): (State, Outcome) {
    var newest := Newest(s.db.versions, incident);
    if newest.None? then (s, Raised(NoPlan))
    else
      var current := s.db.versions[newest.value];
      var plan := Revised(current.plan);
      var inserted := InsertVersion(s.db, Version(current.incident, current.number + 1, plan, digest(plan)));
      if inserted.None? then (s, Raised(IntegrityError))
      else (s.(db := inserted.value), Drafted(digest(plan)))
  }

  /** The diagnosis pipeline stores version 1 of an incident's plan. */
  function DraftPlan(s: State, incident: nat, plan: Plan, digest: Plan -> string): (State, Outcome) {
    var inserted := InsertVersion(s.db, Version(incident, 1, plan, digest(plan)));
    if inserted.None? then (s, Raised(IntegrityError))
    else (s.(db := inserted.value), Drafted(digest(plan)))
  }

  // ----- runs -----

  datatype Call =
    | CallDraft(incident: nat, plan: Plan)
    | CallApprove(incident: nat, user: string, enqueueOk: bool, env: Env)
    | CallReject(incident: nat, user: string)
    | CallEdit(incident: nat)
    | CallExecute(job: nat, env: Env)
    | CallReconcile(job: nat, actual: Option<string>, commitOk: bool)

  function Step(s: State, c: Call, digest: Plan -> string): (State, Outcome) {
    match c
    case CallDraft(incident, plan) => DraftPlan(s, incident, plan, digest)
    case CallApprove(incident, user, enqueueOk, env) => ApproveAndExecute(s, incident, user, enqueueOk, env)
    case CallReject(incident, user) => RejectPlan(s, incident, user)
    case CallEdit(incident) => EditPlan(s, incident, digest)
    case CallExecute(job, env) => ExecuteJob(s, job, env)
    case CallReconcile(job, actual, commitOk) => ReconcileJob(s, job, actual, commitOk)
  }

  /** The state after a sequence of complete calls. */
  function Run(s: State, calls: seq<Call>, digest: Plan -> string): State
    decreases |calls|
  {
    if calls == [] then s else Run(Step(s, calls[0], digest).0, calls[1..], digest)
  }
}
