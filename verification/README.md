# Account-session control: a verified model

The repository runs Instagram account sessions on phones. Most of its code drives devices; this project models the
control logic around it and proves what that logic keeps, step by step and over whole runs. Device work, the database
and the network appear only through the answers they give: an engine is any function from a call to a reply, a clock
is any sequence of readings, a crash may come at any step.

| file | what it models |
|---|---|
| `FollowDecision.dfy` | the Follow termination envelope and its fail-closed validator |
| `RotationTargets.dfy`, `Rotation.dfy`, `RotationTheorems.dfy` | the Follow target rotation: its loop, its specification, its theorems |
| `Replies.dfy` | what a reply of the engine means, on its fields alone |
| `RotationLimits.dfy` | two promises of the rotation that fail in some runs, and exactly when they hold |
| `FollowOutcome.dfy` | the Follow outcome contract that a rotation's result is merged into |
| `ResumePlan.dfy`, `ClaimValidation.dfy`, `Lineage.dfy` | the restart plan, its validation at claim time, and lineages of automatic restarts |
| `Outbox.dfy`, `OutboxProtocol.dfy` | the deferred projection queue: its operations in place, and its interleavings |
| `Supervision.dfy` | the dispatcher's supervision of a session subprocess, and lease continuity |
| `StopTransport.dfy`, `ActionLatch.dfy` | the file-token stop transport and the process-local device action latch |
| `Handoff.dfy`, `SessionHandoff.dfy` | the time reserve for Unfollow, the gates before it, the cap it is started with; the composed session |
| `MarkerScan.dfy` | the unsafe-marker scan over nested summaries |
| `DmTemplate.dfy`, `ProtectionLists.dfy` | the template scanner and renderer; user names and protection snapshots |
| `Options.dfy`, `Text.dfy` | optional values and the Python string operations used |

## How to read it

Code that changes state step by step is a method, or a class with its fields, proved against a specification function;
the theorems are lemmas about that function, so they hold of what the method computes. Protocols with several actors
are steps over a shared state, and their theorems speak about every run.

The theorems about runs say what follows from the specification functions. What these functions themselves decide is
stated on the raw fields of their inputs, with every text and number written out, by the lemmas named `...Exactly`:
a test left out, a bound moved or a text changed in a function breaks one of them.

Where the code does less than its names or its documentation promise, the model follows the code, a lemma says exactly
when the promise holds, and where that alone does not show a case in which it fails, another does:

- `dead_letter` is not final. A drainer whose lease ran out can release a row that another has meanwhile
  dead-lettered (`OutboxProtocol.DeadLetterCanReturn`); exactly which steps do this is `DeadLetterLost`, when a dead
  letter stays in a run is `DeadLetterStaysExactly`, and without overrun leases nothing moves it
  (`DeadLetterAbsorbing`).
- A record can be replayed successfully twice (`OutboxProtocol.CrashReplaysTwice`); without overrun leases this takes
  a crash between a success and its delete (`ExactlyOnce`), and in any run every success is accounted for
  (`EverySuccessAccounted`).
- A single failed renewal can let the request lease lapse when the renewal interval is above 40 seconds and three of
  it are not a whole number of seconds or exceed 900: the length is truncated and clamped
  (`Supervision.LeaseContinuityExact`, `LeaseLengthCovers`).
- An accepted exit-53 decision is accepted for every session; only exit 97 is bound to one
  (`FollowDecision.AcceptedElsewhere`; which decisions of the runner are accepted is `DurablePartialAccepted`).
- A resume policy without a Follow quota runs Follow without a bound (`ClaimValidation.UnboundedFollow` says which
  do); claim validation never grants one (`GrantedFollowIsBounded`).
- With more than two retries configured lineages have no bound: a session at the third attempt can restart as itself
  (`Lineage.LineagesBoundedExactly`).
- A Follow quota bounds what the engine reports. What it makes stays within the quota whatever it reports only if at
  most one target may be attempted or all of them together may make no more than the quota
  (`RotationLimits.UnreportedFollowsBreakTheBound`, `QuotaHoldsExactly`); with honest counts it always does
  (`RotationTheorems.RotationBound`), and otherwise it is exceeded by no more than what the counts leave out
  (`RotationBoundUpToUnreported`; over restarts `Lineage.LineageConserves`).
- `all_targets_exhausted` says that the last target was exhausted (`RotationTheorems.AllExhaustedMeansLastExhausted`),
  not that all were (`RotationLimits.AllExhaustedSkipsTargets`); they all were exactly when every reply reported
  exhaustion (`AllWereExhaustedExactly`).
- The gate on global blockers before Unfollow reads signals that the diagnostic never carries. A blocker in the Follow
  summary stops Unfollow only after exit 97 without an engine envelope (`SessionHandoff.BlockerStopsExactly`,
  `DispatchAfterRotation`).
- Joining texts with a blank can create the action-block marker (`MarkerScan.JoiningCanCreateMarker`; exactly when is
  `MarkersExact`).
- A template can fail although every value is free of braces (`DmTemplate.ExtraBraceFails`; exactly when is
  `RenderSucceedsByPieces`).
- An unreadable deadline lets single actions start but closes the phase gate (`Handoff.ActionsVersusGate`).
- The latch's stamp can be relied on only when the latch is enabled (`ActionLatch.QuietExactly`) and not reconfigured
  while a call is in flight (`ReconfigureInFlight`).
- The first stop reason can be lost to a request from a session that started after its time
  (`StopTransport.RequestReplacesExactly`, `FirstReasonStaysExactly`).
- Contexts with NUL in a field share file names with others (`StopTransport.RawSharedExactly`).

Assumptions on what the model does not contain are predicates in the statements that use them:
`Rotation.HonoursBudget` and `ReportsEveryFollow` for the engine, `Supervision.Sleeps` and `Steady` for clocks and
renewals, `StopTransport.KeptApart` for digests, `OutboxProtocol.Timely` for drainers that finish within their lease.
`Lineage.FollowCanBeResumed` exhibits a lineage whose restarted session meets the first two, and
`Supervision.LapseSteady` a schedule that is steady.

## Model

| member | source | states |
|---|---|---|
| `FollowDecision.TimeHandoffDecisionAccepted` | follow_outcome_contract.py:126-288 | the envelope built for an exact time handoff is accepted for the session it was built for if and only if every part of that session's identity is non-blank |
| `FollowDecision.DurablePartialAccepted` | follow_outcome_contract.py:47-125 | the envelope that the runner builds is accepted exactly for the exit it was built for, other than 97, when all its facts hold, at least one follow is counted and attributed, and the reason is not made of blanks alone; and then for every session |
| `FollowDecision.ValidExactly` | follow_outcome_contract.py:197-288 | which decisions are accepted, field by field: a safe resumable partial Follow in the known schema for its exit; for 97 the time handoff bound to this session, for any other exit the facts of a durable partial |
| `FollowDecision.GlobalBlockersExactly` | account_session_orchestrator.py:4210-4231 | the global blockers are the listed reasons that are not blank, a safety reason that is not blank, and an unsafe platform state |
| `FollowDecision.AcceptedElsewhere` | follow_outcome_contract.py:197-288 | for which other sessions an accepted envelope is accepted too: an exit-97 envelope exactly for those of the same identity, up to surrounding blanks; any other, that of exit 53 in particular, for every session |
| `RotationTargets.BuildFollowRotationTargets` | account_session_orchestrator.py:687-713 | the list keeps, in row order, exactly the rows that are first with their key; all keys are non-empty and distinct |
| `RotationTargets.KeptAreDistinct` | account_session_orchestrator.py:687-713 | any list that keeps the first of each key has distinct keys |
| `RotationTargets.FromRowExactly` | account_session_orchestrator.py:641-684 | which target a row yields: its profile under the first of four names, its id under the first of two, and the id or else the profile as key |
| `RotationTargets.OffersExactly` | account_session_orchestrator.py:687-701 | without rows a fallback that names a profile is the one row |
| `Rotation.RunFollowTargetRotation` | account_session_orchestrator.py:1107-2690 | the loop over key sets, counters, the shrinking goal, the start marker and all terminal branches computes the recursive specification `Rotate`, for every engine and every list |
| `Replies.ExhaustedExactly` | account_session_orchestrator.py:732-765 | a target counts as exhausted exactly for exit 66 or when one of eight tokens occurs in the outcome or in the stop reason: joining the texts adds nothing |
| `Replies.ReadingsAgree` | account_session_orchestrator.py:766-835 | the loop's readings of a reply - reason, used-up budget, local failure, safe skip, unfinished See More, envelope - on its fields alone |
| `RotationTheorems.BoundsExactly` | account_session_orchestrator.py:716-729 | the bounded list has three targets by default, at least one and at most ten; a target's cap is two by default, at least one and at most fifty; only a positive quota is a goal |
| `RotationTheorems.LedgerExactly` | account_session_orchestrator.py:1531-1549 | how a reply changes the running total and the goal, in numbers |
| `RotationTheorems.EnvelopeExactly` | account_session_orchestrator.py:891-966 | which envelope a reply counts with: its own, or one built for an exact time handoff without a blocker |
| `RotationTheorems.NoSpentTargetAgain` | account_session_orchestrator.py:1220-1228 | for any list, with repeated and empty keys: no target without a key is attempted, nor one whose key an earlier attempt exhausted, brought to its budget or found failing |
| `RotationTheorems.BranchExactly` | account_session_orchestrator.py:1601-2511 | the branch of every reply by its fields: exit code, texts, counts and flags |
| `RotationTheorems.RotateBooks` | account_session_orchestrator.py:1229-1292 | every attempt is given the smaller of the per-target cap and what the goal leaves, and is booked in full, for any list of targets |
| `RotationTheorems.RotationBound` | account_session_orchestrator.py:1148-1292 | with an authorized quota and honest counts the follows made in one rotation never exceed it, whatever goals and totals the summaries report |
| `RotationTheorems.RotationBoundUpToUnreported` | account_session_orchestrator.py:1148-1292 | whatever the engine reports, the follows made exceed the quota by no more than what all attempts but the last left out of their counts |
| `RotationLimits.QuotaHoldsExactly` | account_session_orchestrator.py:1220-1292 | without any assumption on counts the quota bounds the follows of every engine that honours its budgets if and only if at most one target may be attempted, or all of them together may make no more than the quota |
| `RotationLimits.UnreportedFollowsBreakTheBound` | account_session_orchestrator.py:1531-1542 | on two targets an engine within every budget that reports no follows makes twice the quota, for every quota up to the per-target cap |
| `RotationTheorems.PerTargetBound` | account_session_orchestrator.py:716-729 | without a quota the follows made are at most the number of attempts times the per-target cap |
| `RotationTheorems.GoalOnlyShrinks` | account_session_orchestrator.py:1543-1549 | an authorized goal stays a goal and never grows |
| `RotationTheorems.TotalIsCounted` | account_session_orchestrator.py:1531-1542 | the running total is the sum of the attempts' counts, unless the last attempt reported the global cap; then it is the larger of that sum and the reported count |
| `RotationTheorems.RotationShape` | account_session_orchestrator.py:1220-1228 | a non-empty rotation leaves through a terminal branch; its attempts are the first targets of the bounded list, in order, each key once; a start from the current followers list is given exactly to the attempt after a proving fast rotation |
| `RotationTheorems.GoIffMayFollow` | account_session_orchestrator.py:1601-2511 | the branch chain goes on exactly when a target is left and one of four licences holds, all stated on the fields of the reply |
| `RotationTheorems.HaltExactly` | account_session_orchestrator.py:1601-2545 | every way to stop after a reply: the reason, the exit code and whether an envelope decided, by the fields of the reply |
| `RotationTheorems.RotationEndsExactly` | account_session_orchestrator.py:1220-2545 | reason, exit code and sealing of every whole rotation, by the fields of its last reply; apart from that only a goal met before another target that may follow |
| `RotationTheorems.UsedUpBudget` | account_session_orchestrator.py:1878-2060 | after a used-up budget, unless something else ends the rotation, the next bounded target is attempted exactly when there is one and the updated goal is not met; one follow less, without another licence, ends the rotation |
| `RotationTheorems.LicenceToContinue` | account_session_orchestrator.py:1958-2391 | in every run a later target is attempted only with a licence, and a bounded target left unattempted means there was none or the goal was met |
| `RotationTheorems.OneSafePartialPerRun` | account_session_orchestrator.py:2231-2391 | at most one safe partial failure per run is followed by another target |
| `RotationTheorems.EnvelopeVerdict` | account_session_orchestrator.py:837-888 | the verdict on any single reply is sealed exactly for exit 53 and for exit 97 with an envelope; a valid envelope keeps its exit code, an invalid one gives 96 |
| `RotationTheorems.EnvelopeDecidesAlone` | account_session_orchestrator.py:2613-2618 | in every run nothing is attempted after exit 53 or after exit 97 with an envelope; an invalid envelope ends as 96; the merge after the loop is skipped in these cases and no other |
| `RotationTheorems.AllExhaustedMeansLastExhausted` | account_session_orchestrator.py:2512-2545 | `all_targets_exhausted` is reported exactly when the whole list was attempted and its last target was exhausted |
| `RotationLimits.AllWereExhaustedExactly` | account_session_orchestrator.py:2512-2545 | when `all_targets_exhausted` is reported, every listed target is among the exhausted ones if and only if every reply reported exhaustion |
| `RotationLimits.AllExhaustedSkipsTargets` | account_session_orchestrator.py:2105-2158 | a rotation that reports `all_targets_exhausted` although its first target was skipped and is not among the exhausted ones |
| `RotationTheorems.ResultRecords` | account_session_orchestrator.py:2029-2034 | the exhausted targets reported are exactly those whose attempt ended in exhaustion, and the fast rotation counts as proof after exactly the attempts that may use it and for which it succeeded |
| `ResumePlan.BuildAccountSessionResumePlan` | account_session_resume_engine.py:325-483 | successive revisions of verdict and reason give the plan of the summary: verdict, block reason, attempts, phases and quotas |
| `ResumePlan.RestartAllowedExactly` | account_session_resume_engine.py:379-455 | a restart is allowed if and only if there is no internal error and no marker, the session is neither completed nor barred, stopped at a safe place and is resumable, known quota and a retry are left, and every phase is decided |
| `ResumePlan.BlockReasonExactly` | account_session_resume_engine.py:270-320 | the reason given for every summary that is not restarted, by what stands against it first |
| `ResumePlan.PlanAttempts` | account_session_resume_engine.py:204-216 | the attempts and retries a plan names: the first attempt found, or one; the next ones unless the retries are used up; no fourth attempt |
| `ResumePlan.PlanQuotas` | account_session_resume_engine.py:111-166 | what a plan says is left of Follow, of Unfollow and in all, by the fields looked up |
| `ResumePlan.PlanPhases` | account_session_resume_engine.py:168-230 | which phases a plan lets run, leaves out or leaves undecided, each exactly |
| `ResumePlan.AllowedPlan` | account_session_resume_engine.py:232-247 | an allowed plan is within the retries, has every phase decided and positive known quota, and names the next attempt exactly when the current one is below three |
| `ClaimValidation.CollectNumbers` | auto_restart_runtime.py:84-138 | the collected numbers are exactly those present, unless a present value is unusable or too small |
| `ClaimValidation.CanonicalRequestAttemptContext` | auto_restart_runtime.py:84-138 | a context is returned exactly when the deciding layer identifies one, and then that one |
| `ClaimValidation.ValidateQuotaConsistency` | auto_restart_runtime.py:162-185 | no reason is given exactly when some phase is planned, each planned phase has positive known quota, and together they fit a known total |
| `ClaimValidation.UnknownFields` | account_session_manual_resume.py:114-155 | the list of unknown fields is empty exactly when every phase is decided and every planned phase has its quota in the plan or in the summary itself |
| `ClaimValidation.ManualResumeBlock` | account_session_manual_resume.py:180-254 | the command is allowed exactly when nothing is unsafe, the plan allows a restart, the account is identified and nothing needed is unknown; otherwise the reason is the first marker, the refused restart or an unknown field, in this order |
| `ClaimValidation.ValidateAtClaim` | auto_restart_runtime.py:351-510 | a claim is granted a policy if and only if the request and the prior session satisfy every condition of the automatic path, and then that policy |
| `ClaimValidation.GrantedExactly` | auto_restart_runtime.py:351-510 | which request and prior run are granted which policy, field by field |
| `ClaimValidation.RecoverableGranted` | auto_restart_runtime.py:392-415 | a retry of a recoverable failure is granted only with session named, right prior run, first or second retry, cleanup done, device lock released, and the one known failure |
| `ClaimValidation.SummaryQuotaNeverGrants` | auto_restart_runtime.py:451-469 | the summary's own quotas, which can let the manual command through, change neither whether a claim is granted nor the policy it is granted |
| `ClaimValidation.UnboundedFollow` | account_session_orchestrator.py:1069-1085 | exactly which policies would run Follow without a bound: no Follow quota, or one without a decided Follow phase |
| `ClaimValidation.PhaseGateExactly` | account_session_orchestrator.py:2772-2835 | when Follow runs under a policy, under which quota, and when a session is an unfollow-only resume |
| `ClaimValidation.GrantedFollowIsBounded` | auto_restart_runtime.py:351-510 | no granted policy is one of them: what it lets run carries its positive quota as the bound |
| `ClaimValidation.GrantedAttempt` | auto_restart_runtime.py:387-391 | every granted claim has an attempt of at least one, one above its retry index, decided by the top level of the request when that names one |
| `ClaimValidation.GrantedUnfollowOnly` | account_session_orchestrator.py:2818-2827 | under a granted policy a session is an unfollow-only resume exactly when Unfollow is planned and Follow is not, or Follow is held back otherwise |
| `Lineage.RotationWithinQuota` | account_session_orchestrator.py:1148-1292 | what a rotation makes and what its summary leaves open fit together into the authorized quota, up to the follows that the engine leaves out of its counts |
| `Lineage.RestartConserves` | account_session_orchestrator.py:5795-5809 | over one restart, follows made plus follows left open exceed what the previous plan left open by no more than what the new session leaves out of its counts |
| `Lineage.LineageConserves` | account_session_resume_engine.py:111-119 | over a whole lineage, follows made so far plus what the latest plan leaves open exceed the first session's count plus its remaining by no more than what the later sessions left out of their counts |
| `Lineage.HonestLineageConserves` | account_session_resume_engine.py:111-119 | with honest counts in the restarted sessions the first session's count plus its remaining is never exceeded |
| `Lineage.RestartedFollowIsBounded` | account_session_orchestrator.py:1069-1085 | no restarted session follows without a positive bound, and the bound is the previous plan's remaining |
| `Lineage.UnrunFollowIsDropped` | account_session_resume_engine.py:180-183 | a session in which Follow did not run leaves a plan without Follow, or none that allows a restart |
| `Lineage.LineageKeepsFollowDropped` | account_session_orchestrator.py:2772-2835 | once a session of a lineage runs without Follow, the first one included, no later one follows |
| `Lineage.RestartAttempt` | auto_restart_runtime.py:387-391 | a restart is one attempt further, or repeats the attempt when the plan names none |
| `Lineage.LineageIsBounded` | account_session_resume_engine.py:421-483 | with at most two retries the k-th session is attempt k and a lineage has at most one attempt more than retries |
| `Lineage.LineagesOfEveryLength` | account_session_resume_engine.py:232-247 | with three retries or more there are lineages of every length, at attempt three from the third session on |
| `Lineage.LineagesBoundedExactly` | account_session_resume_engine.py:421-483 | the length of lineages is bounded if and only if at most two retries are configured, and then by one more than the retries |
| `Lineage.FollowCanBeResumed` | account_session_orchestrator.py:2772-2835 | the assumptions on lineages can be met: some lineage resumes Follow under a bound of five |
| `Outbox.Queue.Enqueue` | deferred_projection_outbox.py:66-90 | all accepted records are inserted, or nothing when some accepted record is too large |
| `Outbox.InsertedRows` | deferred_projection_outbox.py:66-90 | every accepted record gets its own new row with its content, and no other row changes |
| `Outbox.TakesExactly` | deferred_projection_outbox.py:66-83 | the queue takes records of two kinds with a payload, refuses payloads over 262144, and a new row holds kind, payload and time, untried and free |
| `Outbox.ClaimedRow` | deferred_projection_outbox.py:93-124 | a claim leases claimable rows for thirty seconds, frees rows whose lease has run out, changes nothing else of any row, and passes over no older one |
| `Outbox.ClaimedCount` | deferred_projection_outbox.py:93-124 | a claim takes all claimable rows up to a limit between one and a hundred, oldest first and each once |
| `Outbox.InsertedCount` | deferred_projection_outbox.py:66-90 | exactly as many rows are added as records accepted |
| `Outbox.Queue.Claim` | deferred_projection_outbox.py:93-131 | the claim reclaims what has expired and locks the oldest pending rows, as many as the limit and the queue allow, none passed over for a younger one |
| `Outbox.Queue.Drain` | deferred_projection_outbox.py:152-193 | a drain stops exactly at the first record found late, leaves the table that `AfterDrain` describes, and counts successes and failures |
| `Outbox.DrainedRow` | deferred_projection_outbox.py:152-193 | row by row: replayed rows are gone or have one more failure, the rest are released as they were, nothing else changes, and no claimed row is left in processing |
| `OutboxProtocol.AtLeastOnce` | deferred_projection_outbox.py:93-184 | under every interleaving of enqueuers, drainers, crashes and expiring leases, an enqueued record is in the table or was replayed successfully, `attempts` counts exactly its recorded failures, and a dead letter has at least ten |
| `OutboxProtocol.KeptAsEnqueued` | deferred_projection_outbox.py:66-124 | in every run kind, payload and creation time of a row are those of the record enqueued under its id, as long as it is in the table |
| `OutboxProtocol.Exclusion` | deferred_projection_outbox.py:97-123 | while no lease ends under a working drainer: no record is held by two, each is locked under its holder's lease, a dead letter has exactly ten failures, a row in processing is held or was left by a crash |
| `OutboxProtocol.DeadLetterAbsorbing` | deferred_projection_outbox.py:157-184 | in such a run a dead letter never changes again |
| `OutboxProtocol.DrainLeavesNothing` | deferred_projection_outbox.py:152-193 | in such a run a drainer that never crashed and is done has left no row in processing |
| `OutboxProtocol.DeadLetterLost` | deferred_projection_outbox.py:157-184 | in any run, exactly which steps take a row out of `dead_letter`: giving up on it while holding it, or deleting it after a late success |
| `OutboxProtocol.DeadLetterStaysExactly` | deferred_projection_outbox.py:157-184 | in any run a dead letter stays dead if and only if no such step is taken |
| `OutboxProtocol.DeadLetterCanReturn` | deferred_projection_outbox.py:157-163 | a reachable state in which giving up after an expired lease makes a dead letter pending again |
| `OutboxProtocol.FailuresBounded` | deferred_projection_outbox.py:172-181 | in a run without overrun leases at most ten failures are recorded of any record |
| `OutboxProtocol.SuccessesAccounted` | deferred_projection_outbox.py:170-184 | in every run without overrun leases, crashes allowed, the successful replays of a record are exactly those forgotten in a crash before the delete, plus one if it has left the table, plus one if a drainer is about to delete it |
| `OutboxProtocol.EverySuccessAccounted` | deferred_projection_outbox.py:152-184 | in every run, overrun leases or not, the successes of a record are exactly those forgotten in crashes, those that led to a delete, and the drainers about to delete |
| `OutboxProtocol.ExactlyOnce` | deferred_projection_outbox.py:170-184 | in such a run a record that has left the table was replayed successfully once if and only if no crash fell between a success of it and its delete; a second success of any record takes such a crash |
| `OutboxProtocol.CrashReplaysTwice` | deferred_projection_outbox.py:170-184 | a reachable state in which a crash between replay and delete has led to a second successful replay |
| `OutboxProtocol.SoloClaim` | deferred_projection_outbox.py:93-131 | a drainer's claim step is enabled for exactly the batches that `Outbox.Queue.Claim` may take, and leaves the same table |
| `OutboxProtocol.SoloDrain` | deferred_projection_outbox.py:152-193 | left alone, a drainer's steps lead to the table of every drain that `Outbox.Queue.Drain` allows, for every batch, outcome and point at which time runs out |
| `Supervision.WaitForSubprocess` | account_run_request_consumer.py:2485-2732 | the loop ends in the first pass that has a reason to end, with that ending, and in the state its specification reaches; it always ends |
| `Supervision.EndingExactly` | account_run_request_consumer.py:2520-2680 | a pass ends the loop exactly when the child has exited, a cancel is read, or the hard deadline is reached; in this order, with 90 or 30 seconds of grace |
| `Supervision.StopsRecorded` | account_run_request_consumer.py:2557-2580 | a stop by hand is recorded exactly for a canceled child with a context, a watchdog stop exactly for one at the hard deadline |
| `Supervision.PassExactly` | account_run_request_consumer.py:2580-2680 | what one pass does, in order: lease renewal, lock renewal, soft stop, each exactly when due |
| `Supervision.IntervalExactly` | account_run_request_consumer.py:2480-2535 | the interval between renewals and the length of a lease, in numbers |
| `Supervision.Attend` | account_run_request_consumer.py:2589-2690 | one pass renews the request lease and the device lock when due and asks for the soft stop when due |
| `Supervision.EndsDespiteFailures` | account_run_request_consumer.py:2535-2656 | the loop always ends, within the passes the time left allows, and failed reads and renewals change neither when nor how |
| `Supervision.PassBound` | account_run_request_consumer.py:2698-2732 | the number of passes is bounded by the time left at the first one |
| `Supervision.SoftStopOnce` | account_run_request_consumer.py:2676-2690 | the soft stop is asked for exactly once, from the first pass at or after the business deadline, exactly when there is a context |
| `Supervision.AtMostOneSoftStop` | account_run_request_consumer.py:2676-2690 | however the loop ends, the soft stop was asked for at most once and not before the business deadline |
| `Supervision.WatchdogAfterSoftStop` | account_run_request_consumer.py:2698-2730 | a watchdog kill comes after a soft stop exactly when there is a context and the business deadline has passed; always so when that deadline is no later than the hard one |
| `Supervision.LockRenewedInTime` | account_run_request_consumer.py:2658-2674 | a supervised device lock is renewed in the first pass and never more than one pass after it is due |
| `Supervision.LeaseOfLoop` | account_run_request_consumer.py:2589-2656 | the lease in the loop's state is the one the continuity results are about |
| `Supervision.LeaseContinuous` | account_run_request_consumer.py:2589-2656 | the lease never runs out when reads succeed, no two renewals in a row fail, and it is at least twice an interval and a pass long |
| `Supervision.LeaseContinuousWithoutFailures` | account_run_request_consumer.py:2589-2656 | when no renewal fails, one interval and one pass suffice |
| `Supervision.LeaseContinuityExact` | account_run_control.py:114-134 | with passes up to half an interval: the lease never runs out under any schedule if and only if it is at least three intervals long |
| `Supervision.LeaseLengthCovers` | account_run_request_consumer.py:2506-2506 | it is that long exactly up to 40 seconds, and up to 300 seconds for intervals whose triple is a whole number |
| `StopTransport.ControlDirectory.RequestStop` | cooperative_business_stop.py:135-156 | an unsupported reason raises and writes nothing; an existing readable stop is returned; otherwise the new one is written and returned |
| `StopTransport.ControlDirectory.AcknowledgeStop` | cooperative_business_stop.py:175-196 | an acknowledgement is written exactly when a stop is readable |
| `StopTransport.ControlDirectory.Clear` | cooperative_business_stop.py:203-208 | removes the three files of the context |
| `StopTransport.ControlDirectory.ClearForHandoff` | cooperative_business_stop.py:211-217 | removes intent and acknowledgement only |
| `StopTransport.ControlDirectory.RecordOrigin` | cooperative_business_stop.py:220-247 | a supported origin is what is read afterwards; any other raises |
| `StopTransport.RawInjective` | cooperative_business_stop.py:82-94 | fields without NUL give different raw keys to different contexts |
| `StopTransport.RawSharedExactly` | cooperative_business_stop.py:82-94 | a context shares its raw key with another one exactly when NUL occurs in one of its fields |
| `StopTransport.ReadStopExactly` | cooperative_business_stop.py:122-172 | which stop a process reads: in its own file, bound to it, with one of six reasons and a time no earlier than its session start |
| `StopTransport.OriginExactly` | cooperative_business_stop.py:220-247 | which termination origin is read: the recorded one, the signal of a service stop, or a stop by hand |
| `StopTransport.ReasonsExactly` | cooperative_business_stop.py:23-32 | the six stop reasons and the four origins |
| `StopTransport.OthersUntouched` | cooperative_business_stop.py:122-132 | an operation on another context changes no read unless file names collide, and then a token can only disappear: what is read is always a token of the reader's own context |
| `StopTransport.IntentWasRequested` | cooperative_business_stop.py:135-172 | every stop stored in a run, names colliding or not, was requested for this context and not cleared since, and a reader sees it exactly when its session started no later than its time |
| `StopTransport.FirstReasonStays` | cooperative_business_stop.py:135-172 | over any run with requests stamped at or after the session start, the first stop stays readable and unchanged until its context is cleared |
| `StopTransport.RequestStores` | cooperative_business_stop.py:135-156 | a request leaves the stop it can read and otherwise stores its own, readable exactly for sessions that started no later than its time |
| `StopTransport.RequestReplacesExactly` | cooperative_business_stop.py:159-172 | in any directory, a request replaces the stored stop exactly when that carries no time or one before the requester's session start |
| `StopTransport.FirstReasonStaysExactly` | cooperative_business_stop.py:135-217 | in any run a stored stop stays, unchanged at every moment, if and only if no operation in between clears it and every request from a session that started after its time asks for the very same |
| `StopTransport.OriginStays` | cooperative_business_stop.py:203-247 | a recorded termination origin is what is read until its context is cleared or another is recorded; a clear for a handoff does not touch it |
| `StopTransport.AckHasIntent` | cooperative_business_stop.py:175-196 | every acknowledgement carries reason and time of an intent that was readable when it was written, even with colliding names |
| `StopTransport.AckMatchesIntent` | cooperative_business_stop.py:175-217 | as long as an acknowledgement is there, so is the intent it answers |
| `ActionLatch.DeviceActionLatch.Configure` | device_action_latch.py:37-43 | resets every global |
| `ActionLatch.DeviceActionLatch.RequestStop` | device_action_latch.py:46-56 | sets the stop once and stamps quiescence when nothing is active |
| `ActionLatch.DeviceActionLatch.Before` | device_action_latch.py:71-79 | blocks exactly when enabled and stopped, and otherwise counts the call |
| `ActionLatch.DeviceActionLatch.After` | device_action_latch.py:82-87 | counts the call out and stamps quiescence once |
| `ActionLatch.CounterExact` | device_action_latch.py:71-87 | under any interleaving of nested calls the counter is exactly the calls entered and not left |
| `ActionLatch.NothingEntersAfterStop` | device_action_latch.py:71-79 | after the stop of an enabled latch no call enters and the calls in flight only run out |
| `ActionLatch.EntersExactly` | device_action_latch.py:71-79 | every call enters, except after a stop of an enabled latch; one that enters is counted and is the last action, one that does not changes nothing |
| `ActionLatch.FirstStopStays` | device_action_latch.py:46-56 | the trace carries reason and time of the first stop, whatever later stops say |
| `ActionLatch.LastActionKept` | device_action_latch.py:71-87 | no other step moves the time of the last action |
| `ActionLatch.CounterNeverNegative` | device_action_latch.py:82-85 | a call that ends without having begun leaves the counter at zero |
| `ActionLatch.StampedAtFirstQuiet` | device_action_latch.py:46-87 | the quiescence stamp is set exactly at the first moment of stop with no call in flight, and carries its time |
| `ActionLatch.QuietForever` | device_action_latch.py:112-131 | once an enabled latch is stamped, no action is ever active again and the stamp does not move |
| `ActionLatch.QuietExactly` | device_action_latch.py:71-87 | the stamp can be relied on in every run if and only if the latch is enabled |
| `ActionLatch.ReconfigureInFlight` | device_action_latch.py:37-43 | reconfiguring keeps the counter exact, and the next stamp true, if and only if no call is in flight |
| `Handoff.GateExact` | account_session_orchestrator.py:4234-4273 | the time gate after Follow is open exactly until the two reserves have passed after the handoff deadline, corrected by one action's time for each action more or less than was reserved |
| `Handoff.HandoffDeadlineExactly` | account_session_orchestrator.py:3540-3610 | when Follow has to hand over: fifteen seconds for each reserved action and 105 more before a readable business deadline |
| `Handoff.FollowHandoffDeadlineExactly` | cooperative_business_stop.py:263-281 | the handoff deadline for any estimates of action, navigation and recovery |
| `Handoff.TimeBudgetExactly` | account_session_orchestrator.py:4234-4273 | the phase gate is open exactly when the needed actions of fifteen seconds fit before the deadline |
| `Handoff.ActionStartExactly` | cooperative_business_stop.py:250-260 | a single action may start exactly when it ends by a deadline that can be read and is not late already |
| `Handoff.ReserveIsEnough` | account_session_orchestrator.py:3540-3610 | if Follow stops by the handoff deadline, at most the reserves pass and counts have not grown, the gate is open |
| `Handoff.ActionsFit` | cooperative_business_stop.py:250-260 | through an open gate each of the estimated actions in sequence may start and finishes by the deadline |
| `Handoff.ActionsVersusGate` | account_session_orchestrator.py:4246-4273 | an open phase gate always lets an action start; an action may start at a closed gate exactly when the deadline cannot be read, or leaves time for one action but not for all |
| `Handoff.ReservedActionsFinish` | cooperative_business_stop.py:263-281 | the whole promise in one: all reserved actions run and finish by the business deadline |
| `Handoff.CapExactly` | account_session_orchestrator.py:3415-3478 | the cap is the largest number within day limit less today's count and session limit, and in a capped mode within the environment's three caps, ten and the safety cap; none when today's count is unknown |
| `Handoff.CapModeExactly` | runtime_caps.py:1-60 | which mode settings are capped beyond normal production, blanks, letter case and hyphens aside |
| `Handoff.DispatchExactly` | account_session_orchestrator.py:4094-4207 | Unfollow is dispatched if and only if it is permitted, there is work, and one licence holds: an unfollow-only resume, exit 0 with an empty or globally completed outcome, or exit 53/97 with a decision valid for this session and enough time; the gate on global blockers never closes here, because the diagnostic carries none |
| `Handoff.ExitGateExactly` | account_session_orchestrator.py:3133-3174 | the first gate by exit code and outcome, with its reasons |
| `Handoff.DiagnosticSkipsExactly` | account_session_orchestrator.py:3253-3347 | which reasons to skip the diagnostic lists |
| `Handoff.PartialBlockersExactly` | account_session_orchestrator.py:4276-4358 | which reasons the partial handoff lists |
| `Handoff.UnfollowBlockersExactly` | account_session_orchestrator.py:4300-4358 | those among them that lie with Unfollow: settings, mode, candidates, cap and time |
| `Handoff.SkipReasonExactly` | account_session_orchestrator.py:4094-4207 | the reason that the last layer gives, by what is missing first |
| `Handoff.EnabledExactly` | account_session_orchestrator.py:3368-3412 | when the settings enable Unfollow, and when the configured default decides |
| `Handoff.PartialMeans` | account_session_orchestrator.py:4276-4358 | for any signals of the diagnostic: beyond its own conditions the partial handoff looks only at global blockers, the decision and the time |
| `SessionHandoff.EndOfRotation` | account_session_orchestrator.py:1429-1480 | what a rotation leaves: an accepted envelope or exit 96 when sealed, never exit 53 otherwise; its envelope is the engine's or was built for an exact time handoff without a blocker |
| `FollowOutcome.CompletedExactly` | follow_outcome_contract.py:307-441 | an outcome says that Follow is completed as a whole exactly when there was no internal failure, no critical marker, and a global completion reason or exhausted targets without a local or evaluation reason; the work done does not matter |
| `FollowOutcome.OutcomeExactly` | follow_outcome_contract.py:307-418 | status, scope, target, next step and boundary of every outcome, kind by kind |
| `FollowOutcome.CountsExactly` | follow_outcome_contract.py:327-333 | the counters of an outcome: work done, goal and what the goal leaves |
| `FollowOutcome.MarkerInExactly` | follow_outcome_contract.py:34-45 | the ten words that make a text critical |
| `FollowOutcome.CriticalExactly` | follow_outcome_contract.py:302-304 | joining reason and diagnostics creates no critical marker |
| `FollowOutcome.MergedCompletesExactly` | account_session_orchestrator.py:2608-2655 | for which final reasons a rotation's result completes Follow: met goal and exhausted targets always, an engine's own text exactly when it is one of the four completion reasons up to blanks and the summary holds no critical marker |
| `FollowOutcome.MergeExactly` | account_session_orchestrator.py:2608-2655 | what the merge after the loop is given for every result: counts and goal of the rotation, and no diagnostics, no targets left and a safe boundary when the goal was met or all targets are exhausted |
| `SessionHandoff.HandsOverByLastAttempt` | account_session_orchestrator.py:1601-2655 | after exit 0 Follow hands over exactly when the goal is used up before another target that may follow, or the last attempt reported the cap, met the goal, exhausted the last listed target, or gave a completion reason in its own words |
| `SessionHandoff.OutcomeOfExactly` | account_session_orchestrator.py:969-1040 | what the session takes for the outcome of Follow: an accepted late envelope, the merged contract, the critical block of exit 96, or the rotation's envelope |
| `SessionHandoff.DispatchAfterRotation` | account_session_orchestrator.py:5424-5560 | the composed session: after any rotation, with or without a late handoff, Unfollow is dispatched if and only if it is permitted, there is work, Follow hands over and there is time; the Follow summary's safety signals occur only for exit 97 without an engine envelope |
| `SessionHandoff.EnvelopeIgnoresSignals` | account_session_orchestrator.py:969-1040 | after exit 53, and after exit 97 with an envelope in the summary, the summary's safety signals change nothing |
| `SessionHandoff.SignalsDecideEnvelope` | account_session_orchestrator.py:891-966 | changing a reply's safety signals changes the rotation's envelope exactly when the engine sent none, with exit 97 and the reason of the time handoff, and the change adds or removes the last blocker |
| `SessionHandoff.BlockerStopsExactly` | account_session_orchestrator.py:942-949 | after exit 97 without an engine envelope Unfollow is dispatched if and only if there is no global blocker, the identity is known, it is permitted, there are work and time, and the handoff was late or exact |
| `SessionHandoff.DispatchWithoutFollow` | account_session_orchestrator.py:5649-5735 | a restarted session whose granted policy leaves Follow out dispatches Unfollow exactly when the policy plans it, it is permitted and there is work |
| `Handoff.WouldRunMeans` | account_session_orchestrator.py:3253-3347 | the diagnostic's list of skip reasons is empty exactly under these conditions |
| `Handoff.AcceptedExit` | account_session_orchestrator.py:4291-4303 | a decision accepted by the first gate is judged by the second under the same exit code |
| `MarkerScan.SemanticSafetyText` | account_session_resume_engine.py:76-93 | the recursive loops collect the texts of the specification, in order |
| `MarkerScan.WalkExact` | account_session_resume_engine.py:76-93 | a text is collected exactly when some path through dicts and lists of dicts reaches a scalar under a semantic key with that text |
| `MarkerScan.OwnTextExactly` | account_session_resume_engine.py:54-85 | what a field contributes: the lower-case text of a scalar under one of twelve keys |
| `MarkerScan.ScanExact` | account_session_resume_engine.py:96-108 | a pattern without blanks is found exactly when some reached scalar contains it |
| `MarkerScan.ActionBlockScan` | account_session_resume_engine.py:96-108 | "action block" is found exactly when a scalar contains it or two collected texts that follow each other fuse into it |
| `MarkerScan.UnsafeMarkers` | account_session_resume_engine.py:96-108 | the loop over markers and patterns returns the markers found, in order |
| `MarkerScan.MarkersExact` | account_session_resume_engine.py:96-108 | a marker is reported exactly when a reached scalar contains one of its patterns, the action-block marker also by fusion |
| `MarkerScan.JoiningCanCreateMarker` | account_session_resume_engine.py:97-107 | a summary that is marked although no scalar contains any of the marker's patterns |
| `DmTemplate.MatchExact` | dm_template_renderer.py:11-11 | the scanner matches at a position exactly what has the form of a placeholder, in one or two pairs of braces |
| `DmTemplate.IsNameExactly` | dm_template_renderer.py:11-11 | a name has ASCII letters, digits and underscores, at least one character, and no digit first |
| `DmTemplate.ScanLossless` | dm_template_renderer.py:29-42 | literals and placeholders of a body concatenate to the body |
| `DmTemplate.ScanTokens` | dm_template_renderer.py:29-42 | every token piece is a placeholder |
| `DmTemplate.ScanLiterals` | dm_template_renderer.py:29-42 | where the scan leaves a literal character, no placeholder begins |
| `DmTemplate.FindTemplateTokens` | dm_template_renderer.py:29-38 | the loop lists the names of the scan's tokens by first use |
| `DmTemplate.FirstUsesExact` | dm_template_renderer.py:29-38 | the list has exactly the names used, each once |
| `DmTemplate.FirstUsesInOrder` | dm_template_renderer.py:29-38 | it begins with the names of every initial part, so it is in the order of first use |
| `DmTemplate.Replace` | dm_template_renderer.py:102-110 | replacing match by match is the one-pass substitution and notes each name once |
| `DmTemplate.RenderDmTemplate` | dm_template_renderer.py:45-121 | the method computes the specification `Render` |
| `DmTemplate.RenderExact` | dm_template_renderer.py:54-121 | the four outcomes, exactly; success means the result is the one-pass substitution and no placeholder begins anywhere in it |
| `DmTemplate.RenderNames` | dm_template_renderer.py:54-121 | unsupported, missing and used names are reported exactly |
| `DmTemplate.ValueExactly` | dm_template_renderer.py:65-83 | what each of the three names stands for, with the fallback from name to user name; no other name has a value |
| `DmTemplate.RenderSucceeds` | dm_template_renderer.py:102-121 | when neither values nor literals hold an opening brace, rendering succeeds exactly for supported names with values |
| `DmTemplate.RenderSucceedsExactly` | dm_template_renderer.py:102-121 | for values without an opening brace, success exactly: supported names with values, and no literal opening brace of the body begins a placeholder with what follows it |
| `DmTemplate.RenderSucceedsByPieces` | dm_template_renderer.py:102-121 | for values without braces, success exactly, by the pieces of the body: supported names with values, and nowhere one or two literal braces around pieces that read as a name between blanks |
| `DmTemplate.ExtraBraceFails` | dm_template_renderer.py:102-121 | one brace too many around a placeholder fails for every value that is itself a name |
| `ProtectionLists.NormalizeIdempotent` | account_protection_lists.py:20-22 | normalising twice is normalising once |
| `ProtectionLists.ValidNameExactly` | account_protection_lists.py:17-22 | a valid name has one to thirty small letters, digits, dots and underscores |
| `ProtectionLists.BlanksAndCaseIgnored` | account_protection_lists.py:20-22 | surrounding blanks and letter case never matter |
| `ProtectionLists.LeadingAt` | account_protection_lists.py:20-22 | exactly when a leading at-sign matters: before blanks and another at-sign of an otherwise valid name, which it makes invalid |
| `ProtectionLists.SpellingsAgree` | account_protection_lists.py:114-129 | membership does not change with surrounding blanks, letter case, or a leading at-sign of a string that stays a valid name |
| `ProtectionLists.ParseSnapshot` | account_protection_lists.py:48-91 | parsing in the source's order of errors gives the specified snapshot or error |
| `ProtectionLists.ParsesExactly` | account_protection_lists.py:48-91 | which payloads are parsed to which snapshot, by fields; one of another account than expected never is |
| `ProtectionLists.ParseErrorExactly` | account_protection_lists.py:48-91 | the error of every refused payload, by what is wrong first |
| `ProtectionLists.Sorted` | account_protection_lists.py:34-45 | the printed lists are ascending and hold exactly the names |
| `ProtectionLists.AsPayload` | account_protection_lists.py:34-45 | prints a payload of the snapshot |
| `ProtectionLists.PayloadUnique` | account_protection_lists.py:34-45 | the printed payload is determined by the snapshot |
| `ProtectionLists.SnapshotRoundTrip` | account_protection_lists.py:48-91 | every snapshot that parsing returns is what parsing its printed payload returns |
| `ProtectionLists.RequiredFailsClosed` | account_protection_lists.py:114-129 | with protection required, "no" is answered exactly for a valid name against a snapshot that parses and lists no spelling of it |
| `ProtectionLists.NotRequiredExactly` | account_protection_lists.py:114-129 | without required protection: no name and no snapshot mean not listed, a snapshot decides, and one that does not parse raises |
| `Text.IsSpaceExactly` | dm_template_renderer.py:11-11 | the blanks are those of the regular expression class and of stripping, by code point |
| `Text.ContainsExactly` | account_session_resume_engine.py:96-108 | a pattern is found exactly when the text can be cut around it |
| `Text.StripExactly` | account_protection_lists.py:20-22 | stripping cuts off all the blanks at both ends and nothing else |
| `Text.LowerExactly` | account_protection_lists.py:20-22 | lower-casing changes ASCII capitals by code point and nothing else |
| `Text.DropAtsExactly` | account_protection_lists.py:20-22 | exactly the leading at-signs are dropped |

## Left out

- The Follow and Unfollow engines, navigation, screen classification and everything else that drives a phone: the
  Follow engine is any function from position and call to reply; it never reports `all_targets_exhausted` itself.
- Rotation: the early exit on a mainline business-session binding, availability observation, metrics and the contents
  of `remaining_target_ids`; of the merges of the Follow outcome only the one after the loop, which overwrites the
  earlier ones.
- RotationTheorems.RotationBound: follows that the engine makes but does not report are outside this bound;
  `RotationLimits.QuotaHoldsExactly` says for which rotations the quota holds with them included.
- Rotation: the two reason texts that append the exit code to `exit_code_` carry no number.
- Lineage.LineageConserves: the count is that of the rotations; a session's other Follow reports are not modelled.
- ClaimValidation.ValidateAtClaim: the automatic path only; the human-confirmed path, the armed canary control and the
  aliases of rejection reasons are not modelled, and the markers found in the prior run are an input.
- ResumePlan.BuildAccountSessionResumePlan: where the code tries several keys of the summary, the model takes the list
  of values found; operator notes and checkpoints of the plan are not modelled.
- Outbox: SQLite itself, JSON text and UUIDs; a record's payload is its encoded text, one character a byte, ids are
  fresh numbers, each statement or transaction is one atomic step, and which of several rows of the same age is taken
  is left open.
- OutboxProtocol.Exclusion: holds for runs in which every drainer finishes within its lease; without that
  `AtLeastOnce`, `DeadLetterLost` and `DeadLetterStaysExactly` hold.
- Supervision: the database calls, the log messages and the `diagnostics` dictionary; a renewal extends the lease from
  the moment it is asked for; `_terminate_subprocess` is the ending it leads to.
- StopTransport: SHA-256 is any digest function, timestamps are integers, file replacement is atomic, and two
  operations never overlap; overlapping requests for one context are not modelled.
- ActionLatch: which device methods and shell commands are guarded, and the trace file written at exit.
- Handoff: surface preparation and the Unfollow engine after the dispatch, the probe, the log and the long summaries;
  the plan of candidates is a number.
- FollowOutcome.MergedCompletesExactly: the text of the whole summary, whether target ids remain and the boundary of
  the last attempt's own contract are inputs; the suggestions that follow from the status are not modelled.
- SessionHandoff.DispatchAfterRotation: the early return on a scheduled business deadline, which dispatches nothing, is
  not modelled.
- MarkerScan: keys and scalars are texts already turned into strings; lower-casing is that of ASCII letters, here and
  in every other file; Python also lowers some other letters, U+212A to "k" for one.
- DmTemplate and ProtectionLists: values that are no strings; JSON text of the snapshot; sorting of names by code point.
- Login failures, ambiguous mutations, send flags, mainline switches, environment parsing, configuration constants,
  command building and heartbeat publishing are not modelled.
