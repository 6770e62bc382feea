/** The repository and the executor as they run: tables updated row by row, with rollback when a call raises. */
module Store {
  import opened Sequences
  import opened Protocol
  import opened ProtocolSafety

  class Repository {
    const digest: Plan -> string
    var versions: seq<Version>
    var decisions: seq<Decision>
    var jobs: seq<Job>
    var executions: seq<Execution>
    var checks: seq<RecoveryCheck>
    var audit: seq<AuditRow>
    var trace: seq<Write>

    constructor (digest: Plan -> string)
      ensures this.digest == digest && State() == INITIAL && Valid()
    {
      this.digest := digest;
      versions, decisions, jobs, executions, checks, audit, trace := [], [], [], [], [], [], [];
    }

    function Db(): Db
      reads this
    {
      Protocol.Db.Db(versions, decisions, jobs, executions, checks, audit)
    }

    function State(): State
      reads this
    {
      Protocol.State.State(Db(), trace)
    }

    ghost predicate Valid()
      reads this
    {
      Inv(State(), digest)
    }

    /** ROLLBACK: the tables return to what they were; the device does not. */
    method Rollback(saved: Db)
      modifies this
      ensures Db() == saved && trace == old(trace)
    {
      versions, decisions, jobs := saved.versions, saved.decisions, saved.jobs;
      executions, checks, audit := saved.executions, saved.checks, saved.audit;
    }

    method ExecuteJob(j: nat, env: Env) returns (outcome: Outcome)
      modifies this
      ensures (State(), outcome) == Protocol.ExecuteJob(old(State()), j, env)
    {
      var saved := Db();
      if j >= |jobs| { return Raised(NoJob); }
      var job := jobs[j];
      if job.version >= |versions| { return Raised(NoVersion); }
      if ExecutionOf(executions, j).Some? { return DuplicateIgnored; }
      var refused := Precheck(Db(), job.version);
      if refused.Some? { return Raised(refused.value); }
      var plan := versions[job.version].plan;
      var node, iface, value := plan.fields["node"], plan.fields["interface"], plan.fields["value"];

      if env.before.None? { return Raised(DeviceError); }
      var before := env.before.value;
      jobs := jobs[j := job.(status := Running)];
      audit := audit + [Intent(j, before, value)];
      if !env.auditOk {
        Rollback(saved);
        return Raised(AuditUnavailable);
      }
      var mark := |trace|;
      trace := trace + [Write(j, node, iface, value, audit, |decisions|, false)];
      if !env.setOk || env.after.None? {
        Rollback(saved);
        return Raised(DeviceError);
      }
      var after := env.after.value;
      var status := Failed;
      if after == "up" {
        status := Succeeded;
      } else if after == "" || after == "unknown" {
        status := OutcomeUnknown;
      }
      var execution := |executions|;
      executions := executions + [Execution(j, status, before, after)];
      var recoveryPassed := status == Succeeded && after == "up";
      checks := checks + [RecoveryCheck(execution, recoveryPassed)];
      jobs := jobs[j := job.(status := if status == Succeeded then Completed else Reconciling)];
      audit := audit + [Applied(j, before, after, status)];
      if !env.commitOk {
        Rollback(saved);
        return Raised(CommitFailed);
      }
      trace := trace[mark := trace[mark].(kept := true)];
      assert jobs == saved.jobs[j := saved.jobs[j].(status := jobs[j].status)];
      assert audit == saved.audit + [Intent(j, before, "enable"), Applied(j, before, after, status)];
      assert trace == old(trace) + [WriteFor(saved, j, before, true)];
      outcome := Executed(status);
    }

    method ReconcileJob(j: nat, actual: Option<string>, commitOk: bool) returns (outcome: Outcome)
      modifies this
      ensures (State(), outcome) == Protocol.ReconcileJob(old(State()), j, actual, commitOk)
    {
      var saved := Db();
      if j >= |jobs| { return Raised(NoJob); }
      var job := jobs[j];
      if job.status != Running && job.status != Reconciling { return NothingToReconcile(job.status); }
      if job.version >= |versions| { return Raised(NoVersion); }
      var plan := versions[job.version].plan;
      if "node" !in plan.fields || "interface" !in plan.fields { return Raised(MissingField); }
      if actual.None? { return Raised(DeviceError); }
      var resolved;
      if actual.value == "up" {
        jobs := jobs[j := job.(status := Completed)];
        resolved := Succeeded;
      } else if actual.value == "" || actual.value == "unknown" {
        jobs := jobs[j := job.(status := Reconciling)];
        resolved := OutcomeUnknown;
      } else {
        jobs := jobs[j := job.(status := RetryableFailed)];
        resolved := Failed;
      }
      var execution := ExecutionOf(executions, j);
      if execution.Some? && executions[execution.value].status == OutcomeUnknown && resolved != OutcomeUnknown {
        executions := executions[execution.value := executions[execution.value].(status := resolved)];
      }
      audit := audit + [Reconciled(j, actual.value, resolved)];
      if !commitOk {
        Rollback(saved);
        return Raised(CommitFailed);
      }
      outcome := Resolved(resolved);
    }

    method ApproveAndExecute(incident: nat, user: string, commitOk: bool, env: Env) returns (outcome: Outcome)
      modifies this
      ensures (State(), outcome) == Protocol.ApproveAndExecute(old(State()), incident, user, commitOk, env)
    {
      var saved := Db();
      var newest := Newest(versions, incident);
      if newest.None? { return Raised(NoPlan); }
      var v := newest.value;
      var bound := versions[v].digest;
      if !exists d | d in decisions :: d.version == v && d.user == user {
        decisions := decisions + [Decision(v, bound, user, Approve)];
      }
      if !exists j | j in jobs :: j.key == bound {
        if exists j | j in jobs :: j.version == v {
          Rollback(saved);
          return Raised(IntegrityError);
        }
        jobs := jobs + [Job(v, bound, Pending)];
      }
      if !commitOk {
        Rollback(saved);
        return Raised(CommitFailed);
      }
      assert Db() == Enqueue(saved, v, user).value;
      var approval := LatestApproval(decisions, v);
      var job := JobOf(jobs, v);
      if approval.None? || !ApprovalAuthorizesPlan(approval.value, bound) { return Raised(SideDoorRejected); }
      if job.None? { return Raised(NoJob); }
      outcome := ExecuteJob(job.value, env);
    }

    method RejectPlan(incident: nat, user: string) returns (outcome: Outcome)
      modifies this
      ensures (State(), outcome) == Protocol.RejectPlan(old(State()), incident, user)
    {
      outcome := Recorded;
      var newest := Newest(versions, incident);
      if newest.None? { return; }
      var v := newest.value;
      if !exists d | d in decisions :: d.version == v && d.user == user {
        decisions := decisions + [Decision(v, versions[v].digest, user, Reject)];
      }
    }

    method EditPlan(incident: nat) returns (outcome: Outcome)
      modifies this
      ensures (State(), outcome) == Protocol.EditPlan(old(State()), incident, digest)
    {
      var newest := Newest(versions, incident);
      if newest.None? { return Raised(NoPlan); }
      var current := versions[newest.value];
      var revision := if current.plan.revision.Some? then current.plan.revision.value else 0;
      var plan := current.plan.(revision := Some(revision + 1));
      var inserted := InsertVersion(Db(), Version(current.incident, current.number + 1, plan, digest(plan)));
      if inserted.None? { return Raised(IntegrityError); }
      versions := inserted.value.versions;
      outcome := Drafted(digest(plan));
    }

    /** The diagnosis pipeline's insert of a first plan version. */
    method DraftPlan(incident: nat, plan: Plan) returns (outcome: Outcome)
      modifies this
      ensures (State(), outcome) == Protocol.DraftPlan(old(State()), incident, plan, digest)
    {
      var inserted := InsertVersion(Db(), Version(incident, 1, plan, digest(plan)));
      if inserted.None? { return Raised(IntegrityError); }
      versions := inserted.value.versions;
      outcome := Drafted(digest(plan));
    }

    /** Any call takes a valid store to a valid store, by exactly one step of the protocol. */
    method Perform(c: Call) returns (outcome: Outcome)
      requires Valid()
      modifies this
      ensures Valid()
      ensures (State(), outcome) == Step(old(State()), c, digest)
    {
      StepKeepsInv(State(), c, digest);
      match c {
        case CallDraft(incident, plan) => outcome := DraftPlan(incident, plan);
        case CallApprove(incident, user, enqueueOk, env) =>
          outcome := ApproveAndExecute(incident, user, enqueueOk, env);
        case CallReject(incident, user) => outcome := RejectPlan(incident, user);
        case CallEdit(incident) => outcome := EditPlan(incident);
        case CallExecute(job, env) => outcome := ExecuteJob(job, env);
        case CallReconcile(job, actual, commitOk) => outcome := ReconcileJob(job, actual, commitOk);
      }
    }
  }
}
