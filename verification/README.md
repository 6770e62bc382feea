# ClosCall, modelled and proved

ClosCall watches a small Clos network, opens incidents, diagnoses them from evidence, and repairs them through a
guarded executor. This project models its decision logic in Dafny and proves what that logic promises over whole
runs: which writes may reach a device, what every interleaving of the correlator keeps, when detectors may and must
raise, which prefixes the rendered routing policy can spread, and which inputs the checkers accept.

`dafny verify dfyconfig.toml` checks everything.

## How it is laid out

| modules | what they model |
|---|---|
| Sequences | lists: comprehension, counting, flattening and the stable sort |
| Protocol, ProtocolSafety, ProtocolTheorems, ProtocolRecords, ProtocolWrites, ProtocolGate, Store | plan versions, approvals, jobs, executions, recovery checks and audit rows as tables with unique constraints; approve, reject, edit, execute and reconcile as steps over them and over a device trace |
| Correlator, CorrelatorSafety, CorrelatorTheorems | concurrent open-or-attach transactions, interleaved statement by statement |
| Debouncing, Detectors, EwmaTheorems, CusumTheorems, AlarmHistory | the debouncer and the three streaming detectors over real arithmetic, and their alarms as raises over written-out crossings |
| Streams, Detection, Ensemble | window adapters, the detector ensemble, what it consists of, and the evaluator |
| Counters, Rates, Features, ArrivalOrder | the three ways a counter series becomes deltas and rates, how they relate, the causal feature example built from a window, and exactly when it depends on arrival order |
| Fabric, Validation, FabricErrors, Routing, Ports, Wiring, Reachability | address allocation, the spec validator, the rendered interfaces and BGP policy, and the prefixes that spread under it |
| Rollback | the reverse-order undo that halts on doubt |
| Claims, Operators, Diagnosis, RuleDiagnosis, EvidenceTools | the claim verifier, the diagnostic workflow, its rule-based hypothesizer and the evidence envelope |
| Splits, Ranking | the split assembler and the localization metrics |

A class holds the state a source object updates in place, and each of its methods is proved equal to a function of
the old state; theorems are then proved about that function. Loops of the source are loops here, proved against
recursive functions.

Parameters stand for the world: `Env` is what the device, the audit flush and the commit answer during one execute
call (None is a call that raises); `digest` is an arbitrary function of the plan, assumed injective only where a
theorem says so; `Answer` is what preconditions, actuator and read-back do during one rollback step; `hostSubnet`
is the host subnet template as a function of the leaf index.

## Where the code and its documentation differ

- The correlator's module documentation says a duplicate (source, event id) attaches to the existing incident. The
  code looks only at the incident key, so a duplicate under a new key opens another incident
  (`CorrelatorTheorems.DuplicateSignalCanOpen`, with the exact condition in `AttachesIff`).
- The intent record is written in the executor's transaction, so it precedes the write but does not outlive a rollback:
  `ProtocolTheorems.OrphanIff` says exactly when a device write is left without it, and
  `RetryAfterAbortWritesTwice` shows the second write. `ProtocolWrites.WritesPerJob` counts those writes exactly.
- The validator counts leaves times spines links, while the allocator always reserves two links per leaf. With one
  spine an accepted spec can therefore leave the pool: `Validation.OneSpineBound` and `OneSpineOverflows`.
  Nothing bounds loopbacks and management addresses by their pools either: `Validation.NodePoolBounds`.
- The uplink table has two entries. On a sound spec with three spines and a leaf the validator fails with the allocator's
  KeyError instead of answering: `Validation.NoErrorsMeansAccepted` and `ThreeSpinesGoUnanswered`.
- The validator only rejects blank interface names. When two names that a leaf uses coincide, one interface is rendered
  with two addresses: `Ports.LeafPortsDifferIff`.
- Duplicate counter samples keep the later value, which drops counts when the values disagree: `Counters.DeltasConserve`
  has the exact account.
- The feature rates take the first and last sample after a stable sort by time, so samples tied at either end are told
  apart by arrival order: `ArrivalOrder.ArrivalOrderMattersIff` has the exact condition.
- Verdicts are kept per claim id and evidence is looked up by id, so repeated ids hide claims and samples:
  `Diagnosis.CommitsIffLastSupported` and `RuleDiagnosis.RuleDiagnosisIsExact` say exactly what is still checked.
- Rollback needs as many rollback actions as completed steps (`Rollback.RestoresIff`), and an EWMA threshold that is not
  positive makes every value after the first a crossing (`EwmaTheorems.BaselineFrozenIff`); the code checks neither.
- A negative result limit of the evidence tools is a slice from the end, not a cap (`EvidenceTools.EvidenceIsBounded`).

## Model

| member | source | states |
|---|---|---|
| Protocol.Newest | src/closcall/api/adapters.py:226-236 | an incident's plan with the highest version number, and none exactly when the incident has no plan |
| Protocol.LatestApproval | src/closcall/executor/executor.py:49-62 | the latest approve decision on the version: no later one exists; none exactly when nobody approved it |
| ProtocolSafety.StepKeepsInv | src/closcall/executor/executor.py:45-208 | every complete draft, approve, reject, edit, execute or reconcile call, failing or not, keeps the store invariant, only appends rows and only appends to the device trace |
| ProtocolSafety.ExecuteKeepsInv | src/closcall/executor/executor.py:77-159 | one execute call keeps the invariant whichever device call, flush or commit fails |
| ProtocolSafety.ReconcileKeepsInv | src/closcall/executor/executor.py:162-208 | one reconcile call keeps the invariant: a legal job and execution pair becomes a legal pair, and success is only recorded with an "up" read |
| ProtocolSafety.ApproveKeepsInv | src/closcall/api/adapters.py:222-296 | one approve call keeps the invariant across its two transactions |
| ProtocolSafety.EnqueueKeepsInv | src/closcall/api/adapters.py:240-261 | recording the approval and enqueueing never violates a unique constraint and leaves the version with its job |
| ProtocolSafety.RunKeepsInv | src/closcall/api/adapters.py:222-359 | any sequence of calls keeps the invariant |
| ProtocolTheorems.EveryWriteIsAuthorized | src/closcall/executor/executor.py:66-118 | over every run each device write, committed or not, is the "enable" of a stored, allowlisted, non-management plan version; an approve decision bound to its own digest was stored before the write, and the log the write saw is the committed log followed by its own intent |
| ProtocolGate.WritesEnableDataPorts | src/closcall/executor/executor.py:45-118 | over every run each device write enables an interface that its plan names and that does not start with mgmt; the plan says set_admin_state and enable, a decision stored before the write approves it under its own digest, and the log the write saw ends in its own intent |
| ProtocolGate.PassesIff | src/closcall/executor/executor.py:45-74 | a version passes the gate exactly when its latest approval carries its own digest and its plan says set_admin_state and enable for a node and an interface that does not start with mgmt |
| ProtocolGate.RefusalIs | src/closcall/executor/executor.py:59-74 | which check refuses a version: the approval, then action and value, then the management interface, then a missing target |
| ProtocolGate.ExecuteWrites | src/closcall/executor/executor.py:77-119 | an execute call writes exactly when the job has no execution, its version passes the gate, the first read works and the intent is flushed; then exactly once, to the plan's target |
| ProtocolGate.ExecuteRecords | src/closcall/executor/executor.py:118-159 | the answer, the execution, the check, the job status and the two audit rows all follow from the read-back: up, empty or unknown, anything else; a call that does not answer so changes no table |
| ProtocolGate.ExecuteRefusals | src/closcall/executor/executor.py:77-119 | when each other answer of an execute call is given |
| ProtocolGate.ReconcileRecords | src/closcall/executor/executor.py:162-208 | when a reconcile call resolves a job, and what the answer, the job status and the audit row then say |
| ProtocolGate.ReconcileExecution | src/closcall/executor/executor.py:189-197 | only the job's own execution, only with an unknown outcome, and only on an unambiguous read is reinterpreted |
| ProtocolGate.ApproveRecords | src/closcall/api/adapters.py:222-296 | an approve call stores the user's approval of the newest version unless that user has decided, enqueues its one job, and answers what executing that job answers, unless no approval is stored |
| ProtocolTheorems.OneOfEachPerJob | src/closcall/executor/executor.py:88-158 | over every run, per job: committed writes, intent records, apply records, executions and recovery checks are equal in number and at most one |
| ProtocolWrites.WritesPerJob | src/closcall/executor/executor.py:97-159 | over every run the device writes of a job, committed or not, are its executions, at most one, plus one for each call on it that failed after the intent was flushed |
| ProtocolTheorems.OneWritePerVersion | src/closcall/db/models.py:124-128 | over every run a plan version has at most one committed device write |
| ProtocolWrites.WritesPerVersion | src/closcall/db/models.py:124-128 | the same count for a plan version through its one job, and no write at all for a version without a job |
| ProtocolTheorems.OrphanIff | src/closcall/executor/executor.py:97-119 | an execute call leaves a device write without its intent record exactly when the job was executable and something failed after the flush |
| ProtocolTheorems.CompletedRunsKeepEveryWrite | src/closcall/executor/executor.py:118-159 | when no device call or commit fails, every device write is covered by its records |
| ProtocolTheorems.RetryAfterAbortWritesTwice | src/closcall/executor/executor.py:100-119 | a concrete run in which a failed read-back rolls the intent back and the retry writes to the device a second time |
| ProtocolTheorems.NumbersAreGapless | src/closcall/api/adapters.py:348-358 | an incident's version numbers are exactly 1 to k |
| ProtocolTheorems.VersionChain | src/closcall/db/models.py:89-111 | over every run: gapless numbers per incident, pairwise distinct digests, and every decision carries its version's own digest |
| ProtocolTheorems.FirstDecisionIsFinal | src/closcall/api/adapters.py:240-250 | a user's first decision on a version is never changed and never joined by a second, whatever is called later |
| ProtocolTheorems.EditUnapproves | src/closcall/api/adapters.py:327-359 | after an edit the incident's newest version is the edited plan; until a new approve call on the incident it stays unapproved and no device write is made for it |
| ProtocolTheorems.EditRefusedIff | src/closcall/api/adapters.py:345-358 | with an injective digest an edit is refused exactly when no plan exists or the very same revised plan is already stored |
| ProtocolTheorems.ApproveOutcomes | src/closcall/api/adapters.py:285-292 | in every reachable state an approve call never meets a constraint violation or a missing job (the "no execution job" branch is dead), and the side-door guard refuses exactly a user who had rejected a version nobody approved |
| ProtocolTheorems.OnlyLegalPairs | src/closcall/executor/executor.py:121-147 | over every run only six job and execution status pairs are ever seen, and a succeeded execution has an "up" read on record |
| ProtocolTheorems.EveryLegalPairIsReached | src/closcall/executor/executor.py:77-208 | each of those six pairs is reached by a concrete run, so they are exactly the reachable ones |
| ProtocolTheorems.RecoveryMatchesReadBack | src/closcall/executor/executor.py:138-146 | the recovery check passes exactly on an "up" read-back, and only an ambiguous read-back is ever reinterpreted as success |
| ProtocolTheorems.TerminalJobsAreAbsorbing | src/closcall/executor/executor.py:162-172 | completed and retryable_failed jobs, and their executions, never change again over any run |
| ProtocolTheorems.EditKeepsTheAction | src/closcall/api/adapters.py:327-359 | a successful edit makes the next version, with the same action and target fields under a higher revision, the newest one |
| ProtocolTheorems.CallsRecordTheirUser | src/closcall/api/adapters.py:240-325 | an approve or reject call leaves its own user's decision on the newest version: an earlier one if there was one, otherwise its own verdict |
| ProtocolRecords.AuditTellsExecutions | src/closcall/executor/executor.py:102-158 | over every run each execution's reads and the status they mean are on the audit log, its intent before its apply record |
| ProtocolRecords.JobStatusIsBacked | src/closcall/executor/executor.py:147-187 | over every run no job is completed without an authoritative "up" read, none is retryable without a read that was neither "up" nor ambiguous, and none is left running |
| Store.Repository.ExecuteJob | src/closcall/executor/executor.py:77-159 | the row-by-row execution with rollback on every raise has exactly the specified outcome, tables and device trace |
| Store.Repository.ReconcileJob | src/closcall/executor/executor.py:162-208 | the reconcile call resolves job and execution exactly as specified, or changes nothing when it raises |
| Store.Repository.ApproveAndExecute | src/closcall/api/adapters.py:222-296 | the two-transaction approve call has exactly the specified outcome, tables and trace |
| Store.Repository.RejectPlan | src/closcall/api/adapters.py:298-325 | records at most one reject decision per user and version, and nothing without a plan |
| Store.Repository.EditPlan | src/closcall/api/adapters.py:327-359 | inserts the next version of the revised plan, or nothing when a unique constraint refuses it |
| Store.Repository.DraftPlan | scripts/vertical_slice.py:178-192 | inserts version 1 of an incident's plan under the unique constraints |
| Store.Repository.Perform | src/closcall/api/adapters.py:222-359 | every call takes a valid store to a valid store by one step of the protocol |
| Correlator.Lookup | src/closcall/incidents/correlator.py:33-36 | finds the incident with this key exactly when one exists |
| Correlator.LastNumberIsHighest | src/closcall/incidents/correlator.py:91-98 | no event of the incident has a higher sequence number, and one has this number unless there is none |
| CorrelatorSafety.FlushTakesNext | src/closcall/incidents/correlator.py:91-108 | an event insert that meets no clash takes exactly the next number, and no other open transaction holds an event of that incident |
| CorrelatorSafety.StepKeepsInv | src/closcall/incidents/correlator.py:21-108 | every statement of every interleaved transaction, commit and abort included, keeps the correlator invariant |
| CorrelatorSafety.RunKeepsInv | src/closcall/incidents/correlator.py:21-108 | every interleaving keeps the correlator invariant |
| CorrelatorTheorems.KeysAreUnique | src/closcall/db/models.py:38-56 | over every interleaving one incident per key and one signal per (source, event id) |
| CorrelatorTheorems.EventsTellTheStory | src/closcall/incidents/correlator.py:66-81 | over every interleaving a committed incident's events are numbered exactly 1 to k, "opened" is number 1 and only there, and its signals are its signal_attached events plus one if the opening call's signal was new |
| CorrelatorTheorems.ReplayChangesNothing | src/closcall/incidents/correlator.py:50-63 | in any interleaving a transaction that only makes calls whose incident key and signal are committed leaves no trace: the committed tables are those of the run without it |
| CorrelatorTheorems.CommittedCallIsReplayed | src/closcall/incidents/correlator.py:33-63 | a call that a transaction completes and commits has its key and its signal committed, then and ever after, whatever this and all other transactions do in between |
| CorrelatorTheorems.CommittedCallCanBeRepeated | src/closcall/incidents/correlator.py:21-82 | so once a call is committed, a transaction that only repeats it changes nothing, in any interleaving |
| CorrelatorTheorems.SerialIsARun | src/closcall/incidents/correlator.py:21-82 | one call run as an undisturbed transaction commits exactly the serial result |
| CorrelatorTheorems.SerialIs | src/closcall/incidents/correlator.py:21-108 | the whole effect of one undisturbed call: incident and audit row exactly for a new key, signal exactly for a new (source, event id), and one event of the right kind numbered one above the incident's highest; the id returned is the stored incident's |
| CorrelatorTheorems.DuplicateSignalCanOpen | src/closcall/incidents/correlator.py:33-49 | a duplicate (source, event id) under a new key opens a second incident |
| CorrelatorTheorems.AttachesIff | src/closcall/incidents/correlator.py:33-63 | a call attaches exactly when its key already exists, and changes nothing exactly when key and signal both do |
| CorrelatorTheorems.Session.CorrelateSignal | src/closcall/incidents/correlator.py:21-82 | the statement-by-statement call has exactly the serial result |
| CorrelatorTheorems.Session.AppendEvent | src/closcall/incidents/correlator.py:85-108 | the appended event is numbered above every earlier event of its incident and next to the highest; nothing else changes |
| Debouncing.Debouncer.Create | src/closcall/sensors/common.py:63-67 | a debouncer is built exactly for persistence at least 1 and a cooldown that is not negative |
| Debouncing.Debouncer.Observe | src/closcall/sensors/common.py:69-82 | one sample updates run, armed flag and last raise exactly as specified |
| Debouncing.DebouncerRefinesHistory | src/closcall/sensors/common.py:53-82 | the machine raises on a sample iff the crossing run is long enough, has not raised before, and every earlier raise is at least cooldown old |
| Debouncing.RaiseBudget | src/closcall/sensors/common.py:69-82 | every raise uses up a full run of crossings and a clearing sample |
| Debouncing.RaiseRate | src/closcall/sensors/common.py:69-82 | r raises on n samples satisfy r * (persistence + 1) <= n + 1 |
| Debouncing.RaisesSpread | src/closcall/sensors/common.py:78-81 | r raises span at least (r - 1) * cooldown seconds |
| Detectors.OperStateDetector.Update | src/closcall/sensors/rules/fsm.py:27-31 | one oper-state sample advances the detector exactly by its recurrence |
| Detectors.RobustEwmaZScore.Update | src/closcall/sensors/timeseries/statistical.py:48-67 | one sample advances mean, scale, count and debouncer exactly by the recurrence; the call fails exactly on a zero scale past warmup under a negative eps, and then changes nothing |
| Detectors.RobustEwmaZScore.Create | src/closcall/sensors/timeseries/statistical.py:27-46 | built exactly when alpha is in (0, 1] and the debouncer configuration is valid |
| AlarmHistory.FsmAlarmsAre | src/closcall/sensors/rules/fsm.py:27-31 | the alarms on a stream are exactly the debouncer's raises over the samples below the bound |
| AlarmHistory.CrossesWhen | src/closcall/sensors/timeseries/statistical.py:54-57 | under a positive threshold a sample crosses exactly when warmup is over, 1.4826 times the mean deviation exceeds eps, and the sample lies at least the threshold times that scale from the mean |
| AlarmHistory.EwmaAlarmsAre | src/closcall/sensors/timeseries/statistical.py:48-67 | the alarms on a stream are exactly the debouncer's raises over the samples that cross so, the mean and the scale moving by alpha on the others only |
| Detectors.Cusum.Update | src/closcall/sensors/timeseries/statistical.py:98-117 | one sample advances reference, both sums, count and debouncer exactly by the recurrence |
| AlarmHistory.CusumAlarmsAre | src/closcall/sensors/timeseries/statistical.py:98-117 | the alarms on a stream are exactly the debouncer's raises over the samples at which, after warmup, some run of samples since the last crossing deviates in sum from the tracked reference by more than its slack plus the threshold |
| Detectors.RunStream | src/closcall/sensors/common.py:43-50 | collects exactly the alarms of the recurrence over the stream and leaves the detector in the state after the whole stream |
| EwmaTheorems.BaselineHolds | src/closcall/sensors/timeseries/statistical.py:58-63 | mean and scale after any stream are those after the stream with every crossing sample deleted, which has no crossing at all |
| EwmaTheorems.BaselineFrozenIff | src/closcall/sensors/timeseries/statistical.py:56-57 | from a seeded state every value crosses exactly when the threshold is not positive |
| EwmaTheorems.BaselineInHull | src/closcall/sensors/timeseries/statistical.py:61-63 | the mean stays in the hull of the non-crossing samples and the scale between 0 and their range |
| EwmaTheorems.SustainedShiftRaisesOnce | src/closcall/sensors/timeseries/statistical.py:54-67 | from an armed debouncer, repeating one crossing value crosses forever, never moves the baseline and raises exactly once, on the first sample that persistence and cooldown allow |
| EwmaTheorems.RaisesOnPersistence | src/closcall/sensors/timeseries/statistical.py:65-67 | when the cooldown allows it the single alarm is on the sample that completes the persistence, counting the run already under way |
| CusumTheorems.CusumClosedForm | src/closcall/sensors/timeseries/statistical.py:104-114 | the upper sum is the largest suffix sum of (deviation - slack) since the last reset, at least 0, and the lower sum is the mirror |
| CusumTheorems.SumsStayBelowThreshold | src/closcall/sensors/timeseries/statistical.py:107-114 | after warmup neither stored sum exceeds the threshold, exactly when the threshold is not negative |
| CusumTheorems.CusumIsSymmetric | src/closcall/sensors/timeseries/statistical.py:98-117 | negating the stream or adding a constant to it leaves the alarms unchanged |
| Streams.CollapseKeepsLowest | src/closcall/sensors/adapters.py:35-38 | the collapsed oper-state value of a time stamp is the lowest of its samples and 1.0, one entry per time |
| Streams.OperStateIs | src/closcall/sensors/adapters.py:33-39 | the oper-state stream is in strict time order and its entries are exactly the sampled time stamps with the lowest state seen there, at most 1.0 |
| Streams.PointsAre | src/closcall/sensors/adapters.py:44-45 | the points behind a rate stream are exactly the metric's samples in time order |
| Streams.RateStepIs | src/closcall/sensors/adapters.py:46-53 | each later point adds one rate, stamped with it, whose product with the step is the rise, or 0 after a drop; a point at the same time adds none |
| Streams.StreamsAreCausal | src/closcall/sensors/adapters.py:33-54 | cutting the window at a bound cuts both streams at the same bound, for any arrival order and repeated time stamps; both streams are in time order |
| Streams.ComputeOperStateStream | src/closcall/sensors/adapters.py:33-39 | the dictionary loop computes the oper-state stream |
| Streams.ComputeRateStream | src/closcall/sensors/adapters.py:42-54 | the pairwise loop computes the rate stream |
| Detection.AlarmsAreCausal | src/closcall/sensors/common.py:43-50 | cutting an ordered stream cuts any detector's alarms at the same bound |
| Detection.EnsembleIsCausal | src/closcall/sensors/detection.py:36-64 | the ensemble on the samples up to a bound gives exactly the full run's alarms raised by the bound, in the same order |
| Ensemble.AllAlarmsAre | src/closcall/sensors/detection.py:36-64 | the sorted alarms are, as a multiset, those of the state machine on the oper-state stream and of one EWMA and one CUSUM on the rates of each of the six counters, with the settings written out |
| Ensemble.AlarmsPerSource | src/closcall/sensors/detection.py:39-63 | how many of the alarms come from each kind of detector |
| Ensemble.ConfigIsValidIff | src/closcall/sensors/common.py:63-67 | a configuration is accepted exactly when all three persistences are at least one and the cooldown is not negative |
| Detection.VerdictIs | src/closcall/sensors/evaluator.py:51-68 | detected exactly when some alarm is raised from the onset to the end of the horizon, both included, at the earliest such alarm; the other alarms are the false positives |
| Detection.Evaluate | src/closcall/sensors/evaluator.py:40-68 | t_detected is the earliest in-horizon raise, latency its distance to the onset, false positives every alarm outside the horizon; refused exactly for a horizon that is not positive |
| Detection.JudgesIsUnique | src/closcall/sensors/evaluator.py:51-68 | that description pins down the whole result |
| Detection.LateSamplesDoNotMatter | src/closcall/sensors/detection.py:67-72 | dropping every sample after onset + horizon never changes detected, t_detected or latency, and false positives only go down |
| Detection.ComputeAllAlarms | src/closcall/sensors/detection.py:36-64 | the ensemble loop computes exactly the sorted alarms of all detectors over all streams, or fails exactly on a bad debounce setting |
| Detection.DetectIncident | src/closcall/sensors/detection.py:67-72 | the incident outcome is the evaluator's verdict on all alarms |
| Counters.ComputeCounterDeltas | src/closcall/telemetry/counters.py:53-76 | the loop computes the flagged deltas of the recurrence |
| Counters.DeltasTile | src/closcall/telemetry/counters.py:42-76 | for any arrival order: n - 1 deltas, the baseline time is the running maximum, and the non-duplicate intervals tile first to maximum time without overlap |
| Counters.DeltasAre | src/closcall/telemetry/counters.py:56-79 | each delta compares a reading with the latest one before it, the last to arrive among equals: span, quality, amount and rate in every case |
| Counters.DeltasConserve | src/closcall/telemetry/counters.py:60-75 | the last baseline value is the sum of deltas since the last reset (or first value plus all deltas) and exactly what equal-time readings replaced |
| Counters.AgreeingTimesLoseNothing | src/closcall/telemetry/counters.py:63-64 | when equal time stamps carry equal values nothing is replaced |
| Counters.DisagreeingDuplicateLosesCount | src/closcall/telemetry/counters.py:63-64 | a concrete duplicate that replaces the baseline without a delta |
| Rates.RatesAgree | src/closcall/sensors/adapters.py:42-54 | for any samples in which one counter's times are distinct, in any order, the time-weighted rate stream of the counter is at least its endpoint rate times the span, and equal exactly when it never drops or never rises |
| Rates.EndpointTimesSpan | src/closcall/datasets/features.py:74-85 | the endpoint rate times the span is the net increase, or 0 after a net drop |
| ArrivalOrder.EndpointRateIs | src/closcall/datasets/features.py:74-85 | from two samples on the rate times the time from an earliest to a latest sample is the rise between them, or 0 after a drop; without a time span, or with fewer samples, it is 0 |
| Rates.DeltasMatchRates | src/closcall/telemetry/counters.py:66-75 | on time-ordered input the non-duplicate counter deltas and the rate stream describe the same steps one by one |
| Rates.OkRatesAreTheRateStream | src/closcall/sensors/adapters.py:42-54 | on time-ordered input without reset or gap, repeated time stamps included, the OK rates are exactly the rate stream |
| Features.GroupWindow | src/closcall/datasets/features.py:96-100 | one pass yields exactly the window and each metric's samples in it |
| Features.ComputeFeatures | src/closcall/datasets/features.py:88-135 | the builder computes exactly the feature example, or fails exactly on a zero capacity |
| Features.FeaturesAre | src/closcall/datasets/features.py:96-135 | every field of the example: eight times the larger octet rate as a share of the capacity between 0 and 1, the sums of the error and of the discard rates, and the age of the latest sample in the window |
| Features.ChannelIs | src/closcall/datasets/features.py:95-99 | a metric's channel holds exactly its samples from the start to the end of the window, both included |
| Features.OutsideIsInvisible | src/closcall/datasets/features.py:96-97 | a sample outside the causal window changes no feature, wherever it arrives |
| Features.FeaturesInRange | src/closcall/datasets/features.py:109-122 | utilisation lies in [0, 1], rates are not negative, and the sample age lies within the window exactly when the window is not negative |
| Features.MaskIsExact | src/closcall/datasets/features.py:114-128 | each mask bit is set exactly when its channel has too few samples in the window |
| ArrivalOrder.RateIsOrderFreeIff | src/closcall/datasets/features.py:74-85 | a counter's rate is the same in every arrival order of the samples exactly when every earliest and latest sample give the same rate |
| ArrivalOrder.ArrivalOrderMattersIff | src/closcall/datasets/features.py:88-135 | the features are the same in every arrival order exactly when the capacity is zero or the ties at both ends of each counter's window agree: on one rate for errors and discards, on one utilisation for octets |
| ArrivalOrder.ArrivalOrderDoesNotMatter | src/closcall/datasets/features.py:88-135 | if for each counter all earliest and latest samples in the window give one rate, rearranging the samples changes no feature, whatever the capacity |
| ArrivalOrder.DistinctStampsAgree | src/closcall/datasets/features.py:78-79 | a counter without repeated time stamps meets that condition |
| ArrivalOrder.TiedStampsDependOnOrder | src/closcall/datasets/features.py:88-135 | a concrete pair of arrival orders with different features when the last time stamp repeats |
| Fabric.AllocateNodes | src/closcall/domain/fabric.py:152-186 | the ordinal loop gives spines, leaves and hosts exactly their closed-form addresses |
| Fabric.AllocateLinks | src/closcall/domain/fabric.py:188-212 | the nested loop gives exactly the closed-form links, or a KeyError exactly for a third spine with a leaf |
| Fabric.AllocateAccess | src/closcall/domain/fabric.py:214-238 | each leaf with a host gets its access link and host network, the later of two hosts of one leaf counting |
| Fabric.Allocate | src/closcall/domain/fabric.py:131-246 | the whole topology in closed form, link keys, capacities, access links and host networks included, or an error exactly for a pool that is no network or a third spine with a leaf |
| Wiring.AllocatesIff | src/closcall/domain/fabric.py:142-203 | an allocation succeeds exactly when the three pools have no host bits set and there are at most two spines or no leaf |
| Wiring.LinksAre | src/closcall/domain/fabric.py:190-212 | link by link: the first spine on the first uplink at addresses 4 i and 4 i + 1 of the pool, the second on the second uplink at 4 i + 2 and 4 i + 3, with names, ports, capacity and MTU |
| Wiring.AccessLinksAre | src/closcall/domain/fabric.py:214-238 | the access links are exactly those of the leaves with a host, the last one listed for it, at addresses 1 and 10 of the leaf's subnet |
| Wiring.HostNetworksAre | src/closcall/domain/fabric.py:214-226 | the host networks are exactly those of the leaves with a host, with gateway 1 and host 10 |
| Wiring.NodesAre | src/closcall/domain/fabric.py:152-186 | name, role, ASN, loopback and management address of each node, in order |
| Validation.ReportDupes | src/closcall/domain/validate.py:96-101 | reports every repetition in order, and nothing else |
| Validation.ValidateFabric | src/closcall/domain/validate.py:18-69 | the complete error list in order, or the allocator's KeyError |
| Validation.NoErrorsMeansAccepted | src/closcall/domain/validate.py:18-93 | the list is empty exactly on specs that meet every structural rule and collide nowhere; and no answer is given exactly on a sound spec the allocator cannot wire |
| FabricErrors.BasicErrorsAre | src/closcall/domain/validate.py:25-56 | before allocation exactly the errors that apply are reported, each condition written out |
| FabricErrors.AnswerIs | src/closcall/domain/validate.py:18-93 | with at most two spines: basic errors stop the validation, then a pool too small for the links is the only error, then the errors are the overlapping host subnets |
| Validation.LinkAddressesDiffer | src/closcall/domain/fabric.py:192-212 | with at most two spines no link address repeats |
| Validation.TwoSpinesAreSound | src/closcall/domain/validate.py:58-69 | with two spines an accepted spec has distinct link addresses, all in the pool, paired as even leaf and odd spine of one /31 |
| Validation.OneSpineBound | src/closcall/domain/validate.py:58-64 | with one spine the links stay in the pool exactly when 4 * leaves - 2 <= pool size, which the capacity check does not imply |
| Validation.OneSpineOverflows | src/closcall/domain/fabric.py:194-196 | a concrete accepted one-spine spec whose last link address, loopbacks and management addresses are outside their pools |
| Validation.NodeAddressesDiffer | src/closcall/domain/fabric.py:153-186 | loopbacks and management addresses are the consecutive addresses after their bases, so no two are equal, whatever the spec |
| Validation.OnlySubnetsCollide | src/closcall/domain/validate.py:72-95 | with at most two spines the only collision the validator can find is between host subnets |
| Validation.NodePoolBounds | src/closcall/domain/fabric.py:153-186 | loopbacks stay in their pool exactly when the switches are fewer than its addresses, and management addresses exactly when all nodes are |
| Validation.ThreeSpinesGoUnanswered | src/closcall/domain/fabric.py:190-202 | a concrete spec with three spines that passes every structural rule and on which the validator fails instead of answering |
| Routing.CollectEndpoints | src/closcall/domain/render.py:37-44 | collects every interface and address a switch has on any link, and no other |
| Routing.RenderSrlConfig | src/closcall/domain/render.py:47-154 | the loops collect exactly the interfaces, the own, fabric and export prefix sets and the neighbours of a switch, or fail exactly for a name that is no switch or a far end without ASN |
| Wiring.RenderedLeafIs | src/closcall/domain/render.py:47-153 | for a leaf: ASN, router id, its two uplinks by name and address, the host port, the neighbours by address and ASN, and only its own prefixes exported |
| Wiring.RenderedSpineIs | src/closcall/domain/render.py:47-153 | for a spine: ASN, router id, a numbered port and a neighbour by address and ASN for each leaf, and the fabric set exported |
| Wiring.ImportedSetIs | src/closcall/domain/render.py:69-103 | every switch accepts exactly the loopbacks of all switches and the subnets of the leaves with a host |
| Ports.LeafInterfacesAreExact | src/closcall/domain/render.py:53-60 | a leaf's interfaces are exactly one uplink for each spine and its downlink if a host is attached |
| Ports.SpineInterfacesAreExact | src/closcall/domain/render.py:53-60 | a spine's interfaces are exactly one numbered port for each leaf |
| Ports.SpinePortsDiffer | src/closcall/domain/render.py:53-60 | a spine never renders one interface with two addresses |
| Ports.LeafPortsDifferIff | src/closcall/domain/validate.py:42-45 | a leaf renders one interface with two addresses exactly when two of the interface names it uses coincide |
| Routing.LeafNeighborsAreExact | src/closcall/domain/render.py:135-153 | a leaf's rendered neighbours are the far address and ASN of every spine, and nothing else |
| Routing.SpineNeighborsAreExact | src/closcall/domain/render.py:135-153 | a spine's rendered neighbours are the far address and ASN of every leaf, and nothing else |
| Routing.AllocatedResolves | src/closcall/domain/render.py:136-148 | on an allocated topology every far end is a node with an ASN, so rendering a switch never trips its own assertion |
| Reachability.FabricSetIsExact | src/closcall/domain/render.py:76-82 | the rendered fabric set is exactly the prefixes some switch originates |
| Reachability.PoliciesAreExact | src/closcall/domain/render.py:69-112 | each switch imports exactly the fabric set; a leaf exports exactly its own prefixes and a spine exactly the fabric set |
| Reachability.LeafSpineSession | src/closcall/domain/render.py:133-153 | every leaf and spine are configured with each other's address and ASN |
| Reachability.NoSameRoleSession | src/closcall/domain/render.py:133-153 | two leaves, or two spines, never have a session |
| Reachability.NeighborsAreDistinct | src/closcall/domain/render.py:135-153 | a switch lists one neighbour for each switch of the other role, and no address twice |
| Reachability.OnlyFabricCrosses | src/closcall/domain/render.py:97-112 | nothing outside the fabric set ever crosses a session, link /31s included, and a leaf re-exports nothing it learned |
| Reachability.ReachabilityIsExact | src/closcall/domain/render.py:69-153 | from the second round of advertising on, every leaf has exactly the fabric set and every spine exactly its own and the leaves' prefixes, besides what is connected |
| Reachability.ValidFabricReaches | src/closcall/domain/render.py:69-153 | end to end: when the validator reports nothing for a spec with a spine, every switch has a session with each switch of the other role, no neighbour address twice, and the prefixes spread exactly as designed |
| Reachability.SpineMissesOtherLoopbacks | src/closcall/domain/render.py:103-112 | with /24 host subnets a spine misses, of the fabric set, exactly the other spines' loopbacks |
| Rollback.Device.Rollback | src/closcall/executor/rollback.py:35-58 | the loop over the actuator has exactly the specified verdict, device state and request log |
| Rollback.RollbackInverts | src/closcall/executor/rollback.py:44-58 | if each rollback action undoes its forward step, a rolled-back result restores the starting state, and a halt with r reverted leaves the first k - r steps in force with at most step k - r in doubt |
| Rollback.VerdictIsExact | src/closcall/executor/rollback.py:44-58 | rolled back iff every step went well, otherwise halted at the first from the end that did not; all completed steps are reverted iff each has a rollback action |
| Rollback.RestoresIff | src/closcall/executor/rollback.py:46-58 | a rolled-back verdict after k completed steps with n rollback actions always means that the device is back where it started, exactly when k <= n |
| Rollback.AppliesInReverse | src/closcall/executor/rollback.py:47-57 | actions reach the device in exact reverse order, each directly after a precondition check that held |
| Rollback.LogIsExact | src/closcall/executor/rollback.py:46-58 | for each verdict, everything that was asked of the device and every answer, step by step |
| Rollback.ShortListLooksRolledBack | src/closcall/executor/rollback.py:46-58 | for every n < k some device reads rolled back after k steps with n actions without being restored |
| Claims.ById | src/closcall/evidence/claims.py:51-52 | the first record with the id, and none exactly when no record has it |
| Claims.MatchedIsReferenced | src/closcall/evidence/claims.py:95-103 | the matched records are exactly those a cited id resolves to that fit subject, metric, unit and window |
| Claims.SupportIsBacked | src/closcall/evidence/claims.py:104-113 | a supported positive claim has a cited sample that satisfies it, and a sustained one is satisfied by every cited matching sample |
| Operators.GreaterIs | src/closcall/evidence/claims.py:63-113 | for ">": insufficient unless something is cited and all of it is numeric, then supported exactly when every one (or, for an any-sample claim, some one) is greater is as true as the polarity asks |
| Operators.AtLeastIs | src/closcall/evidence/claims.py:63-113 | the same for ">=" |
| Operators.LessIs | src/closcall/evidence/claims.py:63-113 | the same for "<" |
| Operators.AtMostIs | src/closcall/evidence/claims.py:63-113 | the same for "<=" |
| Operators.EqualIs | src/closcall/evidence/claims.py:63-113 | the same for "==", numbers and texts alike, where nothing is ill-typed |
| Operators.NothingElseDecides | src/closcall/evidence/claims.py:71-97 | an ordering against a text and an unknown operator are always insufficient |
| Claims.CherryPickingFails | src/closcall/evidence/claims.py:107-113 | citing more evidence never turns a contradicted sustained claim into a supported one |
| Claims.DualClaimsAgree | src/closcall/evidence/claims.py:80-113 | "always op" and "not ever the opposite" get the same verdict, for every ordering claim |
| Claims.NegationFlips | src/closcall/evidence/claims.py:111-113 | flipping the polarity swaps supported and contradicted and keeps insufficient |
| Diagnosis.TestClaims | src/closcall/workflow/diagnose.py:96-103 | the verdict dictionary keyed by claim id, and whether every kept verdict is supported |
| Diagnosis.Diagnose | src/closcall/workflow/diagnose.py:91-114 | the loop commits the first of at most three hypotheses that passes all gates, with its template and the exact audit trail of verdicts |
| Diagnosis.CommitsIffLastSupported | src/closcall/workflow/diagnose.py:97-105 | a hypothesis commits iff its class is recognized, the last claim of each id is supported, and some claim entails the class |
| Diagnosis.ClassesAre | src/closcall/workflow/diagnose.py:34-62 | the two recognized classes by name, the metric, operator and polarity of the claim each needs, and their plan templates |
| Diagnosis.DecisionIs | src/closcall/workflow/diagnose.py:91-114 | the outcome is the first of the first three hypotheses that commits, with its own claims and template, or none; the tested list names those tried |
| Diagnosis.CommitsIff | src/closcall/workflow/diagnose.py:97-105 | with distinct claim ids: iff the class is recognized, every claim is supported and one entails it |
| Diagnosis.CommitmentIsEarned | src/closcall/workflow/diagnose.py:91-111 | for any hypothesizer with distinct claim ids, a diagnosis is one of its first three hypotheses, all its claims are supported, a supported one entails the class, and the template is the class's own |
| Diagnosis.AbstentionIsEarned | src/closcall/workflow/diagnose.py:113-114 | whatever the hypothesizer, on an abstention each of its first three hypotheses is unrecognized, has an unsupported claim, or has no entailing one |
| Diagnosis.RepeatedIdHidesAClaim | src/closcall/workflow/diagnose.py:97-97 | a concrete hypothesis that commits although its first claim is insufficient |
| RuleDiagnosis.Group | src/closcall/workflow/diagnose.py:121-130 | the grouping loop yields the subjects by first appearance, each subject's samples, and the set ever seen down |
| RuleDiagnosis.Hypothesize | src/closcall/workflow/diagnose.py:120-147 | the hypothesizer emits exactly one sustained-down claim for each candidate subject |
| RuleDiagnosis.HypothesesAre | src/closcall/workflow/diagnose.py:131-147 | each hypothesis field by field: link_down with one sustained claim that every oper-state sample of the subject is below 0.5, all of them cited, from the earliest to the snapshot |
| RuleDiagnosis.CandidatesAreFirstSeen | src/closcall/workflow/diagnose.py:131-134 | the candidates are the at most three subjects ever seen down whose first records come earliest, in that order |
| RuleDiagnosis.RuleDiagnosisIsExact | src/closcall/workflow/diagnose.py:117-147 | for every snapshot the rule path diagnoses iff some candidate has resolvable samples in the state unit and not after the snapshot and all of them are down, and names the first such candidate |
| RuleDiagnosis.UniqueIdsDiagnoseSustainedDown | src/closcall/workflow/diagnose.py:117-147 | with unique evidence ids: iff one of the first three subjects seen down was down in every such sample, naming the first |
| RuleDiagnosis.HiddenSampleIsIgnored | src/closcall/evidence/claims.py:51-52 | a concrete snapshot where an up sample with a repeated id is never looked at and a flapping link is diagnosed |
| EvidenceTools.ToolContext.Charge | src/closcall/evidence/tools.py:32-38 | spending is recorded even when the budget refuses |
| EvidenceTools.ToolContext.Emit | src/closcall/evidence/tools.py:90-106 | one tool call yields exactly the capped in-time evidence, or nothing and no trace entry when the budget is exhausted |
| EvidenceTools.ToolContext.Collect | src/closcall/evidence/tools.py:90-106 | a whole collection is the calls one after the other |
| EvidenceTools.CallSucceedsIff | src/closcall/evidence/tools.py:32-38 | call i yields evidence exactly when i + 1 calls and all rows asked for so far are within budget |
| EvidenceTools.EvidenceIs | src/closcall/evidence/tools.py:90-107 | what an answered call hands out: the in-time records in order, as many as the limit lets through, field by field, trusted unless from a log or a runbook |
| EvidenceTools.ExhaustedStaysExhausted | src/closcall/evidence/tools.py:32-38 | once a call is refused every later call is refused |
| EvidenceTools.BudgetIsKept | src/closcall/evidence/tools.py:26-38 | over any collection the answered calls and handed-out rows never exceed the budget |
| EvidenceTools.TraceIsExact | src/closcall/evidence/tools.py:93-94 | the trace lists exactly the answered calls with their row counts, in order |
| EvidenceTools.FutureIsInvisible | src/closcall/evidence/tools.py:92-92 | records after as_of change nothing |
| EvidenceTools.EvidenceIsBounded | src/closcall/evidence/tools.py:92-106 | everything handed out is a tagged in-time record; the count is within the limit iff the limit is not negative |
| Splits.AssignLinks | src/closcall/datasets/splits.py:97-108 | the first loop accepts iff every leaf is known and no link is in two splits, and names a real offender otherwise |
| Splits.CheckFamilies | src/closcall/datasets/splits.py:110-119 | the second loop accepts iff no repeat family is in two splits, and names a real offender otherwise |
| Splits.BuildGroups | src/closcall/datasets/splits.py:121-124 | each split's group is exactly the links of its incidents |
| Splits.CountSplits | src/closcall/datasets/splits.py:125-125 | each split's count is exactly the number of incident ids assigned to it |
| Splits.Assemble | src/closcall/datasets/splits.py:89-134 | assembled exactly on acceptable incident sets with the whole manifest, otherwise the error of the check that failed |
| Splits.AcceptanceIsExact | src/closcall/datasets/splits.py:97-119 | with unique ids: accepted iff every leaf is known and no two incidents in different splits share a link or a repeat family |
| Splits.GroupsPartitionLinks | src/closcall/datasets/splits.py:121-124 | on acceptance the link groups partition the links |
| Splits.CountsSumToIncidents | src/closcall/datasets/splits.py:125-125 | the counts add up to the number of incidents |
| Splits.OrderDoesNotMatter | src/closcall/datasets/splits.py:89-134 | permuting the incidents changes neither acceptance nor assignments, groups or counts |
| Ranking.EvalRanks | scripts/gate12_5_localization_ablation.py:225-237 | each incident's row holds its average-tie rank, faulted score and peer scores |
| Ranking.ComputeAuroc | scripts/gate12_5_localization_ablation.py:240-250 | the nested loops compute the pooled pairwise AUROC, one half without positives or negatives |
| Ranking.AurocIsRescaledRank | scripts/gate12_5_localization_ablation.py:225-250 | for one incident with m >= 2 links the AUROC is (m - rank) / (m - 1) |
| Ranking.AreaIsProbability | scripts/gate12_5_localization_ablation.py:240-250 | the pooled AUROC lies in [0, 1] |
| Ranking.SwappedRolesSumToOne | scripts/gate12_5_localization_ablation.py:240-250 | swapping the faulted and peer roles complements the AUROC to 1 |
| Ranking.TiesAreChance | scripts/gate12_5_localization_ablation.py:240-250 | all scores tied gives exactly one half |
| Ranking.RescalingChangesNothing | scripts/gate12_5_localization_ablation.py:246-249 | any strictly increasing map of the scores leaves the AUROC unchanged |
| Ranking.RescalingIncidentsChangesNothing | scripts/gate12_5_localization_ablation.py:225-250 | rescaling every score of a test set by any strictly increasing map leaves all ranks and the pooled AUROC unchanged |
| Ranking.RanksAreShared | scripts/gate12_5_localization_ablation.py:232-236 | ranked one by one the m links of an incident share the ranks: they sum to m (m + 1) / 2, whatever the ties |

## Left out

- ProtocolTheorems.OneOfEachPerJob: counts committed writes only, because a raised device call rolls back the intent but not the device; all writes are counted by ProtocolWrites.WritesPerJob.
- ProtocolTheorems.OneWritePerVersion: counts committed writes only, for the same reason; all writes are counted by ProtocolWrites.WritesPerVersion.
- Routing.RenderSrlConfig: lists interfaces, prefixes and neighbours in construction order, because the order of their texts is not modelled; the fixed command lines around them are left out.
- Crash durability of the intent record and two executors racing on one job: each execute or reconcile call is one atomic step, as there is a single executor.
- Case files, incident lists, users, sessions, tokens and pages: queries and library wrappers without decisions.
- `created_at` ordering of approvals is insertion order; two decisions in one clock tick are not distinguished.
- The wording of plan documents beyond the string fields the checks read, and topology hash and risk class, which nothing decides on.
- SHA-256, canonical JSON and the split manifest's hash: the hash depends on nothing but the groups, whose equality is proved.
- IEEE rounding, NaN and infinities: all times, values and rates are reals.
- Detectors.RunStream: a negative eps of the EWMA is excluded, because the failing sample would end the stream; a single update has that failure, and the ensemble always uses the positive default.
- Detectors.Cusum and the EWMA detector carry no alarm text; alarms keep their time and the detector that raised them.
- `build_feature_row`: metadata and schema hashes beside the features.
- IP and YAML text: addresses are integers, prefixes are base and length, and pools are powers of two in size.
- BGP path selection, AS paths and withdrawals: reachability is the least closure of what sessions and policies allow, by rounds of everyone advertising.
- A fabric without any spine: the reachability theorems are about fabrics with at least one.
- The containerlab file, the IPAM document and the certificate material.
- The typed wrappers around the evidence envelope, and the metric template allowlist: one line each.
- Rollback reasons keep their kind, not the text of the exception; a precondition check or read-back that itself raises, which the loop does not catch, is not modelled.
- The sorted order of each link group in the split manifest: groups are sets.
- The text of bootstrap confidence intervals, the graph network, and everything that trains or samples.
