/** What every run of the approval and execution protocol keeps. */
module ProtocolSafety {
  import opened Sequences
  import opened Protocol

  // ----- row predicates for counting -----

  function OfIncident(incident: nat): Version -> bool { (v: Version) => v.incident == incident }
  function IntentFor(j: nat): AuditRow -> bool { (a: AuditRow) => a.Intent? && a.job == j }
  function AppliedFor(j: nat): AuditRow -> bool { (a: AuditRow) => a.Applied? && a.job == j }
  function ExecutionFor(j: nat): Execution -> bool { (e: Execution) => e.job == j }
  function KeptFor(j: nat): Write -> bool { (w: Write) => w.kept && w.job == j }

  // ----- the invariant, table by table -----

  /** Version i takes the next free number of its incident. */
  ghost predicate NumberedNext(vs: seq<Version>, i: nat)
    requires i < |vs|
  {
    vs[i].number == Count(vs[..i], OfIncident(vs[i].incident)) + 1
  }

  /**
    Each version carries its plan's digest, digests never repeat, and an incident's versions are numbered 1, 2, ... in
    order.
  */
  ghost predicate VersionsOk(vs: seq<Version>, digest: Plan -> string) {
    && (forall i {:trigger NumberedNext(vs, i)} | 0 <= i < |vs| :: NumberedNext(vs, i))
    && (forall i | 0 <= i < |vs| :: vs[i].digest == digest(vs[i].plan))
    && (forall i, j | 0 <= i < j < |vs| :: vs[i].digest != vs[j].digest)
  }

  /** A decision names its version's own digest, and a user decides at most once per version. */
  ghost predicate DecisionsOk(vs: seq<Version>, ds: seq<Decision>) {
    && (forall i | 0 <= i < |ds| :: ds[i].version < |vs| && ds[i].digest == vs[ds[i].version].digest)
    && (forall i, j | 0 <= i < j < |ds| :: ds[i].version != ds[j].version || ds[i].user != ds[j].user)
  }

  /** One job per version, keyed by that version's digest. */
  ghost predicate JobsOk(vs: seq<Version>, js: seq<Job>) {
    && (forall i | 0 <= i < |js| :: js[i].version < |vs| && js[i].key == vs[js[i].version].digest)
    && (forall i, j | 0 <= i < j < |js| :: js[i].version != js[j].version)
  }

  function StatusOf(db: Db, j: nat): Option<ExecStatus> {
    var e := ExecutionOf(db.executions, j);
    if e.Some? then Some(db.executions[e.value].status) else None
  }

  /** The pairs of job status and execution status that can be seen together. */
  predicate LegalPair(job: JobStatus, execution: Option<ExecStatus>) {
    || (job == Pending && execution.None?)
    || (job == Completed && execution == Some(Succeeded))
    || (job == Reconciling && execution == Some(Failed))
    || (job == Reconciling && execution == Some(OutcomeUnknown))
    || (job == Completed && execution == Some(Failed))
    || (job == RetryableFailed && execution == Some(Failed))
  }

  /** An authoritative "up" read of job j is on the audit record. */
  ghost predicate HadUpRead(audit: seq<AuditRow>, j: nat) {
    exists a | a in audit :: a.job == j && ((a.Applied? && a.after == "up") || (a.Reconciled? && a.actual == "up"))
  }

  /**
    One execution per job, one recovery check per execution, legal status pairs, and no success without an "up" read.
  */
  ghost predicate ExecutionsOk(db: Db) {
    && (forall i | 0 <= i < |db.executions| :: db.executions[i].job < |db.jobs|)
    && (forall i, j | 0 <= i < j < |db.executions| :: db.executions[i].job != db.executions[j].job)
    && |db.checks| == |db.executions|
    && (forall i | 0 <= i < |db.checks| ::
       db.checks[i].execution == i && (db.checks[i].passed <==> db.executions[i].after == "up"))
    && (forall i | 0 <= i < |db.executions| ::
          db.executions[i].status == ReadBackStatus(db.executions[i].after)
            || ReadBackStatus(db.executions[i].after) == OutcomeUnknown)
    && (forall j | 0 <= j < |db.jobs| :: LegalPair(db.jobs[j].status, StatusOf(db, j)))
    && (forall j | 0 <= j < |db.jobs| :: StatusOf(db, j) == Some(Succeeded) ==> HadUpRead(db.audit, j))
  }

  /** Job j has as many intents, apply records and committed device writes as executions. */
  ghost predicate Balanced(s: State, j: nat) {
    var n := if ExecutionOf(s.db.executions, j).Some? then 1 else 0;
    && Count(s.db.executions, ExecutionFor(j)) == n
    && Count(s.db.audit, IntentFor(j)) == n
    && Count(s.db.audit, AppliedFor(j)) == n
    && Count(s.trace, KeptFor(j)) == n
  }

  /** Version v holds an approve decision bound to its own digest. */
  ghost predicate Approved(db: Db, v: nat) {
    v < |db.versions| && exists d | d in db.decisions ::
      d.version == v && ApprovalAuthorizesPlan(d, db.versions[v].digest)
  }

  /** Among the first n decisions one approves version v with its own digest. */
  ghost predicate ApprovedBy(db: Db, v: nat, n: nat) {
    && v < |db.versions| && n <= |db.decisions|
    && exists i: nat | i < n ::
         db.decisions[i].version == v && ApprovalAuthorizesPlan(db.decisions[i], db.versions[v].digest)
  }

  /** The log a write saw: the committed log of that moment, then the write's own intent. */
  ghost predicate IntentFirst(audit: seq<AuditRow>, w: Write) {
    && w.log != []
    && w.log[|w.log| - 1].Intent? && w.log[|w.log| - 1].job == w.job && w.log[|w.log| - 1].value == w.value
    && w.log[..|w.log| - 1] <= audit
    && (w.kept ==> w.log <= audit)
  }

  /**
    The write is the allowlisted "enable" of a stored, non-management plan that was approved before the write, and its
    own intent was on the log before it, whether or not its transaction committed.
  */
  ghost predicate Authorized(db: Db, w: Write) {
    && w.job < |db.jobs|
    && var v := db.jobs[w.job].version;
    && ApprovedBy(db, v, w.decided)
    && var plan := db.versions[v].plan;
    && Allowlisted(plan) && !OnManagement(plan)
    && Get(plan, "node") == Some(w.node) && Get(plan, "interface") == Some(w.interface) && w.value == "enable"
    && IntentFirst(db.audit, w)
  }

  ghost predicate Inv(s: State, digest: Plan -> string) {
    && VersionsOk(s.db.versions, digest)
    && DecisionsOk(s.db.versions, s.db.decisions)
    && JobsOk(s.db.versions, s.db.jobs)
    && ExecutionsOk(s.db)
    && (forall j: nat :: Balanced(s, j))
    && (forall w | w in s.trace :: Authorized(s.db, w))
  }

  /** What no call ever takes back: rows of the append-only tables, and a job's version and key. */
  ghost predicate Extends(old_: Db, new_: Db) {
    && old_.versions <= new_.versions
    && old_.decisions <= new_.decisions
    && old_.audit <= new_.audit
    && |old_.jobs| <= |new_.jobs|
    && (forall j | 0 <= j < |old_.jobs| ::
       new_.jobs[j].version == old_.jobs[j].version && new_.jobs[j].key == old_.jobs[j].key)
  }

  lemma AuthorizedStable(old_: Db, new_: Db, w: Write)
    requires Extends(old_, new_) && Authorized(old_, w)
    ensures Authorized(new_, w)
  {
    var v := old_.jobs[w.job].version;
    var i: nat :| i < w.decided && old_.decisions[i].version == v
                  && ApprovalAuthorizesPlan(old_.decisions[i], old_.versions[v].digest);
    assert new_.decisions[i] == old_.decisions[i];
  }

  lemma UpReadStable(a: seq<AuditRow>, b: seq<AuditRow>, j: nat)
    requires a <= b && HadUpRead(a, j)
    ensures HadUpRead(b, j)
  {
    var r :| r in a && r.job == j && ((r.Applied? && r.after == "up") || (r.Reconciled? && r.actual == "up"));
    assert r in b;
  }

  // ----- each table keeps its own predicate -----

  lemma VersionAppended(vs: seq<Version>, row: Version, digest: Plan -> string)
    requires VersionsOk(vs, digest) && row.digest == digest(row.plan)
    requires row.number == Count(vs, OfIncident(row.incident)) + 1
    requires forall v | v in vs :: v.digest != row.digest
    ensures VersionsOk(vs + [row], digest)
  {
    var vs' := vs + [row];
    forall i | 0 <= i < |vs'|
      ensures NumberedNext(vs', i)
    {
      if i < |vs| {
        assert NumberedNext(vs, i) && vs'[..i] == vs[..i];
      } else {
        assert vs'[..i] == vs;
      }
    }
  }

  lemma DecisionAppended(db: Db, row: Decision)
    requires DecisionsOk(db.versions, db.decisions) && row.version < |db.versions|
    requires row.digest == db.versions[row.version].digest
    ensures DecisionsOk(db.versions, InsertDecision(db, row).decisions)
  {
  }

  lemma JobAppended(db: Db, v: nat)
    requires JobsOk(db.versions, db.jobs) && v < |db.versions| && forall j | j in db.jobs :: j.version != v
    ensures JobsOk(db.versions, db.jobs + [Job(v, db.versions[v].digest, Pending)])
  {
  }

  lemma PendingJobAppended(db: Db, row: Job)
    requires ExecutionsOk(db) && row.status == Pending
    ensures ExecutionsOk(db.(jobs := db.jobs + [row]))
  {
    var db' := db.(jobs := db.jobs + [row]);
    forall j | 0 <= j < |db'.jobs|
      ensures LegalPair(db'.jobs[j].status, StatusOf(db', j))
      ensures StatusOf(db', j) == Some(Succeeded) ==> HadUpRead(db'.audit, j)
    {
      assert StatusOf(db', j) == StatusOf(db, j);
    }
  }

  /** Tables that a call leaves alone stay good when versions, decisions or jobs grow. */
  lemma Regrown(s: State, db: Db, digest: Plan -> string)
    requires Inv(s, digest) && Extends(s.db, db)
    requires db.executions == s.db.executions && db.audit == s.db.audit
    requires VersionsOk(db.versions, digest) && DecisionsOk(db.versions, db.decisions) && JobsOk(db.versions, db.jobs)
    requires ExecutionsOk(db)
    ensures Inv(s.(db := db), digest)
  {
    forall w | w in s.trace ensures Authorized(db, w) { AuthorizedStable(s.db, db, w); }
    forall j: nat ensures Balanced(s.(db := db), j) { assert Balanced(s, j); }
  }

  // ----- one lemma per way of changing the tables -----

  lemma VersionInserted(s: State, row: Version, digest: Plan -> string)
    requires Inv(s, digest) && row.digest == digest(row.plan)
    requires row.number == Count(s.db.versions, OfIncident(row.incident)) + 1
    requires InsertVersion(s.db, row).Some?
    ensures Inv(s.(db := InsertVersion(s.db, row).value), digest) && Extends(s.db, InsertVersion(s.db, row).value)
  {
    hide Balanced, Authorized;
    VersionAppended(s.db.versions, row, digest);
    Regrown(s, InsertVersion(s.db, row).value, digest);
  }

  lemma DecisionInserted(s: State, row: Decision, digest: Plan -> string)
    requires Inv(s, digest) && row.version < |s.db.versions| && row.digest == s.db.versions[row.version].digest
    ensures Inv(s.(db := InsertDecision(s.db, row)), digest) && Extends(s.db, InsertDecision(s.db, row))
  {
    hide Balanced, Authorized, VersionsOk;
    DecisionAppended(s.db, row);
    Regrown(s, InsertDecision(s.db, row), digest);
  }

  lemma KeyIdentifiesVersion(vs: seq<Version>, js: seq<Job>, v: nat, digest: Plan -> string)
    requires VersionsOk(vs, digest) && JobsOk(vs, js) && v < |vs|
    ensures forall j | j in js :: j.key == vs[v].digest <==> j.version == v
  {
  }

  lemma JobFound(js: seq<Job>, v: nat)
    requires exists j | j in js :: j.version == v
    ensures JobOf(js, v).Some?
  {
  }

  /** The version clash of InsertJob cannot happen: the idempotency key already identifies the version. */
  lemma JobInserted(s: State, v: nat, digest: Plan -> string)
    requires Inv(s, digest) && v < |s.db.versions|
    ensures var r := InsertJob(s.db, Job(v, s.db.versions[v].digest, Pending));
      r.Some? && Inv(s.(db := r.value), digest) && Extends(s.db, r.value) && JobOf(r.value.jobs, v).Some?
  {
    hide Balanced, Authorized, VersionsOk, ExecutionsOk;
    var row := Job(v, s.db.versions[v].digest, Pending);
    KeyIdentifiesVersion(s.db.versions, s.db.jobs, v, digest);
    if exists j | j in s.db.jobs :: j.key == row.key {
      JobFound(s.db.jobs, v);
    } else {
      JobAppended(s.db, v);
      PendingJobAppended(s.db, row);
      Regrown(s, s.db.(jobs := s.db.jobs + [row]), digest);
      assert row in s.db.jobs + [row];
      JobFound(s.db.jobs + [row], v);
    }
  }

  lemma WriteIsAuthorized(s: State, j: nat, before: string)
    requires Executable(s.db, j)
    ensures Authorized(s.db, WriteFor(s.db, j, before, false))
  {
    hide VersionsOk, DecisionsOk, ExecutionsOk, Balanced;
    var v, log := s.db.jobs[j].version, s.db.audit + [Intent(j, before, "enable")];
    var i: nat :| i < |s.db.decisions| && LastApprovalAt(s.db.decisions, v, i)
                  && LatestApproval(s.db.decisions, v) == Some(s.db.decisions[i]);
    assert ApprovedBy(s.db, v, |s.db.decisions|);
    assert log[..|s.db.audit|] == s.db.audit;
  }

  lemma OrphanWritten(s: State, j: nat, before: string, digest: Plan -> string)
    requires Inv(s, digest) && Executable(s.db, j)
    ensures Inv(s.(trace := s.trace + [WriteFor(s.db, j, before, false)]), digest)
  {
    var w := WriteFor(s.db, j, before, false);
    var s' := s.(trace := s.trace + [w]);
    WriteIsAuthorized(s, j, before);
    hide Executable, Authorized;
    forall k: nat ensures Balanced(s', k) {
      assert Balanced(s, k);
      CountAppend(s.trace, w, KeptFor(k));
    }
  }

  lemma ExecutionAdded(es: seq<Execution>, row: Execution, k: nat)
    ensures Count(es + [row], ExecutionFor(k)) == Count(es, ExecutionFor(k)) + if row.job == k then 1 else 0
    ensures ExecutionOf(es + [row], k).Some? <==> ExecutionOf(es, k).Some? || row.job == k
  {
    CountAppend(es, row, ExecutionFor(k));
    assert (es + [row])[..|es|] == es;
    hide Count;
  }

  lemma ApplyAdded(audit: seq<AuditRow>, intent: AuditRow, applied: AuditRow, k: nat)
    requires intent.Intent? && applied.Applied? && intent.job == applied.job
    ensures Count(audit + [intent, applied], IntentFor(k)) == Count(audit, IntentFor(k))
      + if intent.job == k then 1 else 0
    ensures Count(audit + [intent, applied], AppliedFor(k)) == Count(audit, AppliedFor(k))
      + if intent.job == k then 1 else 0
  {
    assert audit + [intent, applied] == (audit + [intent]) + [applied];
    CountAppend(audit, intent, IntentFor(k));
    CountAppend(audit + [intent], applied, IntentFor(k));
    CountAppend(audit, intent, AppliedFor(k));
    CountAppend(audit + [intent], applied, AppliedFor(k));
    hide Count;
  }

  lemma KeptAdded(trace: seq<Write>, w: Write, k: nat)
    ensures Count(trace + [w], KeptFor(k)) == Count(trace, KeptFor(k)) + if w.kept && w.job == k then 1 else 0
  {
    CountAppend(trace, w, KeptFor(k));
    hide Count;
  }

  lemma ExecutionBalances(s: State, j: nat, before: string, after: string, k: nat)
    requires Executable(s.db, j) && Balanced(s, k)
    ensures Balanced(State(CommitExecution(s.db, j, before, after), s.trace + [WriteFor(s.db, j, before, true)]), k)
  {
    hide Precheck, Count, ExecutionOf;
    var status := ReadBackStatus(after);
    ExecutionAdded(s.db.executions, Execution(j, status, before, after), k);
    ApplyAdded(s.db.audit, Intent(j, before, "enable"), Applied(j, before, after, status), k);
    KeptAdded(s.trace, WriteFor(s.db, j, before, true), k);
  }

  lemma AppendedStatus(db: Db, j: nat, before: string, after: string, k: nat)
    requires Executable(db, j)
    ensures StatusOf(CommitExecution(db, j, before, after), k)
         == if k == j then Some(ReadBackStatus(after)) else StatusOf(db, k)
  {
    hide Precheck, ReadBackStatus;
    assert CommitExecution(db, j, before, after).executions[..|db.executions|] == db.executions;
  }

  lemma ExecutionAppended(db: Db, j: nat, before: string, after: string)
    requires Executable(db, j) && ExecutionsOk(db)
    ensures ExecutionsOk(CommitExecution(db, j, before, after))
  {
    hide Precheck, ExecutionOf, StatusOf, HadUpRead;
    var db' := CommitExecution(db, j, before, after);
    forall k | 0 <= k < |db'.jobs|
      ensures LegalPair(db'.jobs[k].status, StatusOf(db', k))
      ensures StatusOf(db', k) == Some(Succeeded) ==> HadUpRead(db'.audit, k)
    {
      AppendedStatus(db, j, before, after, k);
      if k == j {
        if ReadBackStatus(after) == Succeeded { UpReadAppended(db, j, before, after); }
      } else if StatusOf(db, k) == Some(Succeeded) {
        UpReadStable(db.audit, db'.audit, k);
      }
    }
  }

  lemma UpReadAppended(db: Db, j: nat, before: string, after: string)
    requires Executable(db, j) && ReadBackStatus(after) == Succeeded
    ensures HadUpRead(CommitExecution(db, j, before, after).audit, j)
  {
    hide Precheck, ExecutionOf;
    var db' := CommitExecution(db, j, before, after);
    assert db'.audit[|db.audit| + 1] in db'.audit;
  }

  lemma JobStatusChanged(vs: seq<Version>, js: seq<Job>, j: nat, status: JobStatus)
    requires JobsOk(vs, js) && j < |js|
    ensures JobsOk(vs, js[j := js[j].(status := status)])
  {
  }

  lemma ExecutionCommitted(s: State, j: nat, before: string, after: string, digest: Plan -> string)
    requires Inv(s, digest) && Executable(s.db, j)
    ensures var db := CommitExecution(s.db, j, before, after);
      Inv(State(db, s.trace + [WriteFor(s.db, j, before, true)]), digest) && Extends(s.db, db)
  {
    var db := CommitExecution(s.db, j, before, after);
    var w := WriteFor(s.db, j, before, true);
    assert Extends(s.db, db);
    JobStatusChanged(s.db.versions, s.db.jobs, j, db.jobs[j].status);
    ExecutionAppended(s.db, j, before, after);
    forall k: nat ensures Balanced(State(db, s.trace + [w]), k) {
      assert Balanced(s, k);
      ExecutionBalances(s, j, before, after, k);
    }
    forall x | x in s.trace + [w] ensures Authorized(db, x) {
      if x in s.trace {
        AuthorizedStable(s.db, db, x);
      } else {
        WriteIsAuthorized(s, j, before);
        AuthorizedStable(s.db, db, WriteFor(s.db, j, before, false));
        assert w.log <= db.audit;
      }
    }
  }

  lemma {:induction false} ExecutionIsUnique(es: seq<Execution>, i: nat)
    requires i < |es| && forall a, b | 0 <= a < b < |es| :: es[a].job != es[b].job
    ensures ExecutionOf(es, es[i].job) == Some(i)
  {
    if i < |es| - 1 { ExecutionIsUnique(es[..|es| - 1], i); }
  }

  /** Changing an execution's status does not move it. */
  lemma {:induction false} ExecutionOfUpdate(es: seq<Execution>, i: nat, status: ExecStatus, j: nat)
    requires i < |es|
    ensures ExecutionOf(es[i := es[i].(status := status)], j) == ExecutionOf(es, j)
    ensures Count(es[i := es[i].(status := status)], ExecutionFor(j)) == Count(es, ExecutionFor(j))
  {
    var es' := es[i := es[i].(status := status)];
    var n := |es| - 1;
    if i == n {
      assert es'[..n] == es[..n];
    } else {
      assert es'[..n] == es[..n][i := es[i].(status := status)];
      ExecutionOfUpdate(es[..n], i, status, j);
    }
  }

  lemma ReconcileFrames(s: State, j: nat, actual: string, k: nat)
    requires j < |s.db.jobs| && ExecutionOf(s.db.executions, j).Some? && Balanced(s, k)
    ensures var db := CommitReconcile(s.db, j, actual);
      Balanced(s.(db := db), k) && ExecutionOf(db.executions, k) == ExecutionOf(s.db.executions, k)
  {
    var row := Reconciled(j, actual, ReadBackStatus(actual));
    CountAppend(s.db.audit, row, IntentFor(k));
    CountAppend(s.db.audit, row, AppliedFor(k));
    ExecutionOfUpdate(s.db.executions, ExecutionOf(s.db.executions, j).value, ReadBackStatus(actual), k);
  }

  lemma ReconcileExecutions(db: Db, j: nat, actual: string)
    requires j < |db.jobs| && ExecutionsOk(db) && db.jobs[j].status in {Running, Reconciling}
    requires forall k: nat :: ExecutionOf(CommitReconcile(db, j, actual).executions, k) == ExecutionOf(db.executions, k)
    ensures ExecutionsOk(CommitReconcile(db, j, actual))
  {
    hide ExecutionOf, HadUpRead;
    var db' := CommitReconcile(db, j, actual);
    forall k | 0 <= k < |db'.jobs|
      ensures LegalPair(db'.jobs[k].status, StatusOf(db', k))
      ensures StatusOf(db', k) == Some(Succeeded) ==> HadUpRead(db'.audit, k)
    {
      assert LegalPair(db.jobs[k].status, StatusOf(db, k));
      if k == j {
        ReconcileRead(db, j, actual);
      } else {
        assert StatusOf(db', k) == StatusOf(db, k);
        if StatusOf(db', k) == Some(Succeeded) { UpReadStable(db.audit, db'.audit, k); }
      }
    }
  }

  lemma ReconcileRead(db: Db, j: nat, actual: string)
    requires j < |db.jobs|
    ensures actual == "up" ==> HadUpRead(CommitReconcile(db, j, actual).audit, j)
  {
    var db' := CommitReconcile(db, j, actual);
    assert db'.audit[|db.audit|] in db'.audit;
  }

  lemma ReconcileCommitted(s: State, j: nat, actual: string, digest: Plan -> string)
    requires Inv(s, digest) && j < |s.db.jobs| && s.db.jobs[j].status in {Running, Reconciling}
    ensures var db := CommitReconcile(s.db, j, actual); Inv(s.(db := db), digest) && Extends(s.db, db)
  {
    hide Balanced, Authorized, HadUpRead, ExecutionOf;
    var db := CommitReconcile(s.db, j, actual);
    assert LegalPair(s.db.jobs[j].status, StatusOf(s.db, j));
    forall k: nat
      ensures Balanced(s.(db := db), k) && ExecutionOf(db.executions, k) == ExecutionOf(s.db.executions, k)
    {
      assert Balanced(s, k);
      ReconcileFrames(s, j, actual, k);
    }
    ReconcileExecutions(s.db, j, actual);
    forall w | w in s.trace ensures Authorized(db, w) { AuthorizedStable(s.db, db, w); }
  }

  // ----- numbering -----

  /** With gapless numbering, the newest version's number is how many versions the incident has. */
  lemma {:induction false} NewestNumber(vs: seq<Version>, incident: nat, digest: Plan -> string)
    requires VersionsOk(vs, digest)
    ensures var r := Newest(vs, incident);
      if r.None? then Count(vs, OfIncident(incident)) == 0 else vs[r.value].number == Count(vs, OfIncident(incident))
  {
    if vs != [] {
      var n := |vs| - 1;
      VersionsPrefix(vs, n, digest);
      NewestNumber(vs[..n], incident, digest);
      assert NumberedNext(vs, n);
    }
  }

  lemma VersionsPrefix(vs: seq<Version>, n: nat, digest: Plan -> string)
    requires VersionsOk(vs, digest) && n <= |vs|
    ensures VersionsOk(vs[..n], digest)
  {
    forall i | 0 <= i < n ensures NumberedNext(vs[..n], i) {
      assert NumberedNext(vs, i) && vs[..n][..i] == vs[..i];
    }
  }

  /** An incident with any version has a version number 1. */
  lemma {:induction false} FirstVersion(vs: seq<Version>, incident: nat, digest: Plan -> string)
    requires VersionsOk(vs, digest) && Count(vs, OfIncident(incident)) > 0
    ensures exists v | v in vs :: v.incident == incident && v.number == 1
  {
    var n := |vs| - 1;
    if Count(vs[..n], OfIncident(incident)) > 0 {
      VersionsPrefix(vs, n, digest);
      FirstVersion(vs[..n], incident, digest);
      var v :| v in vs[..n] && v.incident == incident && v.number == 1;
      assert v in vs;
    } else {
      assert NumberedNext(vs, n);
      assert vs[n] in vs;
    }
  }

  // ----- every call keeps the invariant -----

  lemma ExecuteKeepsInv(s: State, j: nat, env: Env, digest: Plan -> string)
    requires Inv(s, digest)
    ensures var s' := ExecuteJob(s, j, env).0; Inv(s', digest) && Extends(s.db, s'.db) && s.trace <= s'.trace
  {
    hide Inv, CommitExecution, WriteFor, Precheck;
    if Executable(s.db, j) && env.before.Some? && env.auditOk {
      if env.setOk && env.after.Some? && env.commitOk {
        ExecutionCommitted(s, j, env.before.value, env.after.value, digest);
      } else {
        OrphanWritten(s, j, env.before.value, digest);
      }
    }
  }

  lemma ExtendsTransitive(a: Db, b: Db, c: Db)
    requires Extends(a, b) && Extends(b, c)
    ensures Extends(a, c)
  {
  }

  /** Enqueueing never violates a constraint and leaves the version with a job. */
  lemma EnqueueKeepsInv(s: State, v: nat, user: string, digest: Plan -> string)
    requires Inv(s, digest) && v < |s.db.versions|
    ensures var r := Enqueue(s.db, v, user);
      r.Some? && Inv(s.(db := r.value), digest) && Extends(s.db, r.value) && JobOf(r.value.jobs, v).Some?
  {
    hide Inv, InsertJob;
    var row := Decision(v, s.db.versions[v].digest, user, Approve);
    DecisionInserted(s, row, digest);
    var mid := s.(db := InsertDecision(s.db, row));
    JobInserted(mid, v, digest);
    ExtendsTransitive(s.db, mid.db, Enqueue(s.db, v, user).value);
  }

  lemma ApproveKeepsInv(s: State, incident: nat, user: string, commitOk: bool, env: Env, digest: Plan -> string)
    requires Inv(s, digest)
    ensures var s' := ApproveAndExecute(s, incident, user, commitOk, env).0;
      Inv(s', digest) && Extends(s.db, s'.db) && s.trace <= s'.trace
  {
    hide Inv, ExecuteJob, Enqueue;
    var newest := Newest(s.db.versions, incident);
    if newest.Some? && commitOk {
      EnqueueKeepsInv(s, newest.value, user, digest);
      var s1 := s.(db := Enqueue(s.db, newest.value, user).value);
      var job := JobOf(s1.db.jobs, newest.value);
      ExecuteKeepsInv(s1, job.value, env, digest);
      ExtendsTransitive(s.db, s1.db, ExecuteJob(s1, job.value, env).0.db);
    }
  }

  lemma DraftKeepsInv(s: State, incident: nat, plan: Plan, digest: Plan -> string)
    requires Inv(s, digest)
    ensures var s' := DraftPlan(s, incident, plan, digest).0;
      Inv(s', digest) && Extends(s.db, s'.db) && s.trace == s'.trace
  {
    if Count(s.db.versions, OfIncident(incident)) > 0 {
      FirstVersion(s.db.versions, incident, digest);
    } else if DraftPlan(s, incident, plan, digest).1.Drafted? {
      VersionInserted(s, Version(incident, 1, plan, digest(plan)), digest);
    }
  }

  lemma EditKeepsInv(s: State, incident: nat, digest: Plan -> string)
    requires Inv(s, digest)
    ensures var s' := EditPlan(s, incident, digest).0; Inv(s', digest) && Extends(s.db, s'.db) && s.trace == s'.trace
  {
    hide VersionsOk, DecisionsOk, JobsOk, ExecutionsOk, Balanced, Authorized;
    if EditPlan(s, incident, digest).1.Drafted? {
      NewestNumber(s.db.versions, incident, digest);
      var current := s.db.versions[Newest(s.db.versions, incident).value];
      var plan := Revised(current.plan);
      VersionInserted(s, Version(incident, current.number + 1, plan, digest(plan)), digest);
    }
  }

  lemma RejectKeepsInv(s: State, incident: nat, user: string, digest: Plan -> string)
    requires Inv(s, digest)
    ensures var s' := RejectPlan(s, incident, user).0; Inv(s', digest) && Extends(s.db, s'.db) && s.trace == s'.trace
  {
    var newest := Newest(s.db.versions, incident);
    if newest.Some? {
      DecisionInserted(s, Decision(newest.value, s.db.versions[newest.value].digest, user, Reject), digest);
    }
  }

  lemma ReconcileKeepsInv(s: State, j: nat, actual: Option<string>, commitOk: bool, digest: Plan -> string)
    requires Inv(s, digest)
    ensures var s' := ReconcileJob(s, j, actual, commitOk).0;
      Inv(s', digest) && Extends(s.db, s'.db) && s.trace == s'.trace
  {
    hide Inv, CommitReconcile;
    if ReconcileJob(s, j, actual, commitOk).1.Resolved? {
      ReconcileCommitted(s, j, actual.value, digest);
    }
  }

  lemma StepKeepsInv(s: State, c: Call, digest: Plan -> string)
    requires Inv(s, digest)
    ensures var s' := Step(s, c, digest).0; Inv(s', digest) && Extends(s.db, s'.db) && s.trace <= s'.trace
  {
    hide Inv, Extends, DraftPlan, ApproveAndExecute, RejectPlan, EditPlan, ExecuteJob, ReconcileJob;
    match c
    case CallDraft(incident, plan) => DraftKeepsInv(s, incident, plan, digest);
    case CallApprove(incident, user, enqueueOk, env) => ApproveKeepsInv(s, incident, user, enqueueOk, env, digest);
    case CallReject(incident, user) => RejectKeepsInv(s, incident, user, digest);
    case CallEdit(incident) => EditKeepsInv(s, incident, digest);
    case CallExecute(job, env) => ExecuteKeepsInv(s, job, env, digest);
    case CallReconcile(job, actual, commitOk) => ReconcileKeepsInv(s, job, actual, commitOk, digest);
  }

  lemma {:induction false} RunKeepsInv(s: State, calls: seq<Call>, digest: Plan -> string)
    requires Inv(s, digest)
    ensures var s' := Run(s, calls, digest); Inv(s', digest) && Extends(s.db, s'.db) && s.trace <= s'.trace
    decreases |calls|
  {
    if calls != [] {
      hide Inv, Step;
      StepKeepsInv(s, calls[0], digest);
      RunKeepsInv(Step(s, calls[0], digest).0, calls[1..], digest);
    }
  }
}
