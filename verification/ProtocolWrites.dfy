/** How many device writes a whole run makes, those whose transaction failed included. */
module ProtocolWrites {
  import opened Sequences
  import opened Protocol
  import opened ProtocolSafety
  import opened ProtocolTheorems

  function WriteOf(j: nat): Write -> bool { (w: Write) => w.job == j }

  function LostFor(j: nat): Write -> bool { (w: Write) => w.job == j && !w.kept }

  /** The tables, job and environment of the execute call that a call comes to, if it gets that far. */
  function AttemptOf(s: State, c: Call): Option<(Db, nat, Env)> {
    match c
    case CallExecute(j, env) => Some((s.db, j, env))
    case CallApprove(incident, user, enqueueOk, env) =>
      var newest := Newest(s.db.versions, incident);
      if newest.None? || !enqueueOk then None else
      var db := Enqueue(s.db, newest.value, user);
      if db.None? then None else
      var approval, job := LatestApproval(db.value.decisions, newest.value), JobOf(db.value.jobs, newest.value);
      if approval.None? || !ApprovalAuthorizesPlan(approval.value, s.db.versions[newest.value].digest) || job.None? then
        None
      else Some((db.value, job.value, env))
    case _ => None
  }

  /** The job may be executed, its intent is flushed, and then the device, the read-back or the commit fails. */
  predicate FailsAfterFlush(db: Db, j: nat, env: Env) {
    Executable(db, j) && env.before.Some? && env.auditOk && !Completes(env)
  }

  /** The call executes job j and fails after the flush. */
  predicate LosesWrite(s: State, c: Call, j: nat) {
    var a := AttemptOf(s, c);
    a.Some? && a.value.1 == j && FailsAfterFlush(a.value.0, j, a.value.2)
  }

  /** How many calls of a run execute job j and fail after the flush. */
  function LostWrites(s: State, calls: seq<Call>, digest: Plan -> string, j: nat): nat
    decreases |calls|
  {
    if calls == [] then 0
    else (if LosesWrite(s, calls[0], j) then 1 else 0) + LostWrites(Step(s, calls[0], digest).0, calls[1..], digest, j)
  }

  lemma ExecuteLoses(s: State, i: nat, env: Env, j: nat)
    ensures Count(ExecuteJob(s, i, env).0.trace, LostFor(j))
         == Count(s.trace, LostFor(j)) + if i == j && FailsAfterFlush(s.db, j, env) then 1 else 0
  {
    if Executable(s.db, i) && env.before.Some? {
      var lost, kept := WriteFor(s.db, i, env.before.value, false), WriteFor(s.db, i, env.before.value, true);
      assert lost.job == kept.job == i && !lost.kept && kept.kept;
      CountAppend(s.trace, lost, LostFor(j));
      CountAppend(s.trace, kept, LostFor(j));
    }
    hide Count, Precheck, LatestApproval, CommitExecution, WriteFor;
  }

  lemma StepLoses(s: State, c: Call, digest: Plan -> string, j: nat)
    ensures Count(Step(s, c, digest).0.trace, LostFor(j)) == Count(s.trace, LostFor(j))
      + if LosesWrite(s, c, j) then 1 else 0
  {
    hide Count, Precheck, LatestApproval, JobOf, Newest, Enqueue, ExecuteJob, CommitReconcile, InsertVersion,
      InsertDecision;
    var a := AttemptOf(s, c);
    if a.Some? { ExecuteLoses(s.(db := a.value.0), a.value.1, a.value.2, j); }
  }

  lemma {:induction false} RunLoses(s: State, calls: seq<Call>, digest: Plan -> string, j: nat)
    ensures Count(Run(s, calls, digest).trace, LostFor(j))
      == Count(s.trace, LostFor(j)) + LostWrites(s, calls, digest, j)
    decreases |calls|
  {
    hide Count, Step, LosesWrite;
    if calls != [] {
      StepLoses(s, calls[0], digest, j);
      RunLoses(Step(s, calls[0], digest).0, calls[1..], digest, j);
    }
  }

  lemma {:induction false} KeptOrLost(trace: seq<Write>, j: nat)
    ensures Count(trace, WriteOf(j)) == Count(trace, KeptFor(j)) + Count(trace, LostFor(j))
  {
    if trace != [] { KeptOrLost(trace[..|trace| - 1], j); }
  }

  /**
    Over every run the device writes of a job are its executions, at most one, and one for each call that failed after
    the flush.
  */
  lemma WritesPerJob(calls: seq<Call>, digest: Plan -> string, j: nat)
    ensures var s := Run(INITIAL, calls, digest);
      && Count(s.trace, WriteOf(j)) == Count(s.db.executions, ExecutionFor(j)) + LostWrites(INITIAL, calls, digest, j)
      && Count(s.db.executions, ExecutionFor(j)) <= 1
  {
    var s := Run(INITIAL, calls, digest);
    OneOfEachPerJob(calls, digest, j);
    KeptOrLost(s.trace, j);
    RunLoses(INITIAL, calls, digest, j);
    assert Count([], LostFor(j)) == 0;
    hide Count, Run;
  }

  function WriteOn(js: seq<Job>, v: nat): Write -> bool { (w: Write) => w.job < |js| && js[w.job].version == v }

  lemma {:induction false} WritesByJob(trace: seq<Write>, js: seq<Job>, v: nat, j: nat)
    requires j < |js| && js[j].version == v && forall a, b | 0 <= a < b < |js| :: js[a].version != js[b].version
    ensures Count(trace, WriteOn(js, v)) == Count(trace, WriteOf(j))
  {
    if trace != [] { WritesByJob(trace[..|trace| - 1], js, v, j); }
  }

  lemma {:induction false} NoJobNoWrites(trace: seq<Write>, js: seq<Job>, v: nat)
    requires forall i | 0 <= i < |js| :: js[i].version != v
    ensures Count(trace, WriteOn(js, v)) == 0
  {
    if trace != [] { NoJobNoWrites(trace[..|trace| - 1], js, v); }
  }

  /**
    Over every run a plan version reaches the device at most once, besides the calls on its job that failed after the
    flush.
  */
  lemma WritesPerVersion(calls: seq<Call>, digest: Plan -> string, v: nat)
    ensures var s := Run(INITIAL, calls, digest); var job := JobOf(s.db.jobs, v);
      Count(s.trace, WriteOn(s.db.jobs, v))
      == if job.None? then 0
         else Count(s.db.executions, ExecutionFor(job.value)) + LostWrites(INITIAL, calls, digest, job.value)
  {
    var s := Run(INITIAL, calls, digest);
    var job := JobOf(s.db.jobs, v);
    Reachable(calls, digest);
    hide Run, Count, JobOf;
    if job.Some? {
      WritesByJob(s.trace, s.db.jobs, v, job.value);
      WritesPerJob(calls, digest, job.value);
    } else {
      NoJobNoWrites(s.trace, s.db.jobs, v);
    }
  }
}
