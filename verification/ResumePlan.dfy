/** The passive restart plan that a finished account session leaves behind. */
module ResumePlan {
  import opened Options
  import Text
  import FD = FollowDecision

  const MAX_RETRIES_DEFAULT := 2
  const TOTAL_ATTEMPTS := MAX_RETRIES_DEFAULT + 1
  const SCROLL_RESUMABLE := "visible_window_exhausted_scroll_failed"
  const UNFOLLOW_DONE := {"quota_reached", "candidates_exhausted", "disabled"}

  /** What the plan reads of `unfollow_outcome`. */
  datatype UnfollowOutcome = UnfollowOutcome(
    phaseStatus: string,
    resumeRecommended: bool,
    remainingCount: Option<int>,
    lastSafeCheckpoint: string)

  /** What the plan reads of a session summary. A field that the code looks up under several names
      is the list of the values found, in the order of the lookups; `None` is absent or not a number. */
  datatype Summary = Summary(
    terminationClass: string,
    restartEligibility: string,
    unsafeMarkers: seq<string>,
    runtimeInternalError: bool,
    stopText: string,
    outcomeResumable: bool,
    rotationSafeAfterScroll: bool,
    surfaceAmbiguous: bool,
    attemptIds: seq<Option<int>>,
    followTargets: seq<Option<int>>,
    followsCompleted: Option<int>,
    followRemaining: Option<int>,
    followExcluded: bool,
    followPhaseStatus: string,
    followDecision: Option<FD.Decision>,
    unfollowTargets: seq<Option<int>>,
    unfollowsDone: seq<Option<int>>,
    unfollowRemaining: seq<Option<int>>,
    unfollowOutcome: UnfollowOutcome,
    mandatoryUnfollowDone: Option<bool>,
    welcomeEnabled: Option<bool>,
    welcomeStatus: string)

  /** `None` stands for "unknown". */
  datatype Phases = Phases(welcome: Option<bool>, recovery: bool, follow: Option<bool>, unfollow: Option<bool>)

  datatype Quotas = Quotas(follow: Option<int>, unfollow: Option<int>, total: Option<int>)

  datatype Plan = Plan(
    restartAllowed: bool,
    blockReason: string,
    attemptId: int,
    nextAttemptId: Option<int>,
    retryIndex: int,
    nextRetryIndex: Option<int>,
    maxRetries: nat,
    phases: Phases,
    remaining: Quotas)

  function FirstKnown(values: seq<Option<int>>): Option<int> {
    if values == [] then None
    else if values[0].Some? then values[0]
    else FirstKnown(values[1..])
  }

  function LeftOver(target: Option<int>, done: Option<int>): Option<int> {
    if target.Some? && done.Some? then Some(Max(0, target.value - done.value)) else None
  }

  predicate FollowExcluded(s: Summary) {
    s.followExcluded && Text.Strip(s.followPhaseStatus) == "skipped_cleanly"
  }

  /** The third value of `_follow_quota`, after the rule for a frozen plan without Follow. */
  function FollowRemaining(s: Summary): Option<int> {
    if FollowExcluded(s) then Some(0)
    else if s.followRemaining.Some? then s.followRemaining
    else LeftOver(FirstKnown(s.followTargets), s.followsCompleted)
  }

  /** The third value of `_unfollow_quota`. */
  function UnfollowRemaining(s: Summary): Option<int> {
    if s.unfollowOutcome.phaseStatus in UNFOLLOW_DONE then Some(0)
    else
      var known := FirstKnown(s.unfollowRemaining);
      if known.Some? then known else LeftOver(FirstKnown(s.unfollowTargets), FirstKnown(s.unfollowsDone))
  }

  function TotalRemaining(s: Summary): Option<int> {
    var f, u := FollowRemaining(s), UnfollowRemaining(s);
    if f.None? then u
    else if u.None? then f
    else Some(f.value + u.value)
  }

  function WelcomePhase(s: Summary): Option<bool> {
    var status := Text.Strip(s.welcomeStatus);
    if s.welcomeEnabled == Some(false) || status in {"skipped", "completed"} then Some(false)
    else if s.welcomeEnabled == Some(true) && status != "" then Some(true)
    else None
  }

  function RecoveryPending(s: Summary): bool {
    && s.followDecision.Some?
    && FD.Validate(s.followDecision, 53, FD.Scope("", "", "", "", "", "")).Valid?
    && s.followDecision.value.recoveryRequired
    && s.followDecision.value.noNewFollowUntilRecovered
  }

  function FollowPhase(s: Summary): Option<bool> {
    if RecoveryPending(s) then Some(false)
    else if FollowRemaining(s).None? then None
    else Some(FollowRemaining(s).value > 0)
  }

  /** `_phase_to_run_unfollow` */
  function UnfollowPhase(s: Summary): Option<bool> {
    var o := s.unfollowOutcome;
    var target, done := FirstKnown(s.unfollowTargets), FirstKnown(s.unfollowsDone);
    if o.phaseStatus in UNFOLLOW_DONE then Some(false)
    else if o.phaseStatus == "partial_resumable" && o.resumeRecommended && o.remainingCount.GetOr(0) > 0
            && Text.Strip(o.lastSafeCheckpoint) != "" then Some(true)
    else if UnfollowRemaining(s).Some? then
      Some(s.mandatoryUnfollowDone == Some(false) && UnfollowRemaining(s).value > 0)
    else if target.Some? && done.Some? then
      Some(s.mandatoryUnfollowDone == Some(false) && target.value > done.value)
    else if s.mandatoryUnfollowDone == Some(true) then Some(false)
    else None
  }

  /** The known `attempt_id`, or 1 for a session that no restart request started. */
  function CurrentAttempt(s: Summary): int {
    FirstKnown(s.attemptIds).GetOr(1)
  }

  /** `_follow_resume_checkpoint_block_reason` */
  function CheckpointBlock(s: Summary): string {
    if Text.Strip(s.stopText) != SCROLL_RESUMABLE then ""
    else if s.outcomeResumable then ""
    else if s.rotationSafeAfterScroll && !s.surfaceAmbiguous then ""
    else "unsafe_follow_resume_checkpoint"
  }

  /** `",".join(parts)` */
  function Commas(parts: seq<string>): string {
    if parts == [] then ""
    else if |parts| == 1 then parts[0]
    else parts[0] + "," + Commas(parts[1..])
  }

  function InitialBlock(s: Summary): string {
    if s.runtimeInternalError then "runtime_internal_error_same_generation"
    else if s.unsafeMarkers != [] then "unsafe_markers:" + Commas(s.unsafeMarkers)
    else if s.terminationClass == "completed" then "session_completed"
    else if s.restartEligibility == "not_needed" then "restart_not_needed"
    else if s.restartEligibility == "blocked" then "restart_eligibility_blocked"
    else CheckpointBlock(s)
  }

  predicate Resumable(s: Summary) {
    s.terminationClass in {"partial_safe_stopped", "partial_resumable"} || s.restartEligibility == "eligible"
  }

  predicate AllDecided(p: Phases) {
    p.welcome.Some? && p.follow.Some? && p.unfollow.Some?
  }

  function PhasesOf(s: Summary): Phases {
    Phases(WelcomePhase(s), RecoveryPending(s), FollowPhase(s), UnfollowPhase(s))
  }

  /** Why a plan does not let the session restart; "" when it does. */
  function BlockReason(s: Summary, maxRetries: nat): string {
    var total := TotalRemaining(s);
    if InitialBlock(s) != "" then InitialBlock(s)
    else if !Resumable(s) then
      if s.terminationClass == "unknown" || s.restartEligibility == "unknown" then "unknown_resume_inputs"
      else "restart_not_allowed_for_termination_class"
    else if total.None? then "quota_remaining_unknown"
    else if total.value <= 0 then "no_quota_remaining"
    else if Max(0, CurrentAttempt(s) - 1) + 1 > maxRetries then "auto_restart_retries_exhausted"
    else if !AllDecided(PhasesOf(s)) then "phase_plan_unknown"
    else ""
  }

  /** All that a restart needs but the retries. */
  predicate RetriesExhausted(s: Summary, maxRetries: nat) {
    && InitialBlock(s) == "" && Resumable(s) && TotalRemaining(s).Some? && TotalRemaining(s).value > 0
    && Max(0, CurrentAttempt(s) - 1) + 1 > maxRetries
  }

  /** The plan of a summary. */
  ghost predicate IsPlanOf(plan: Plan, s: Summary, maxRetries: Option<int>) {
    var retries := Max(0, maxRetries.GetOr(MAX_RETRIES_DEFAULT));
    var current := CurrentAttempt(s);
    var retry := Max(0, current - 1);
    var exhausted := RetriesExhausted(s, retries);
    && plan.blockReason == BlockReason(s, retries)
    && (plan.restartAllowed <==> plan.blockReason == "")
    && plan.attemptId == current
    && plan.retryIndex == retry
    && plan.nextAttemptId == (if !exhausted && current < TOTAL_ATTEMPTS then Some(current + 1) else None)
    && plan.nextRetryIndex == (if !exhausted then Some(retry + 1) else None)
    && plan.maxRetries == retries
    && plan.phases == PhasesOf(s)
    && plan.remaining == Quotas(FollowRemaining(s), UnfollowRemaining(s), TotalRemaining(s))
  }

  /** `build_account_session_resume_plan`: the verdict is reached by successive revisions of
      `allowed` and `reason`. */
  method BuildAccountSessionResumePlan(s: Summary, maxRetries: Option<int>) returns (plan: Plan)
    ensures IsPlanOf(plan, s, maxRetries)
  {
    hide CurrentAttempt, PhasesOf, FollowRemaining, UnfollowRemaining, TotalRemaining, InitialBlock;
    var retries: nat := Max(0, maxRetries.GetOr(MAX_RETRIES_DEFAULT));
    var current := CurrentAttempt(s);
    var nextAttempt := if current < TOTAL_ATTEMPTS then Some(current + 1) else None;
    var total := TotalRemaining(s);
    var phases := PhasesOf(s);
    var allowed, reason := false, InitialBlock(s);
    if reason == "" {
      if s.terminationClass in {"partial_safe_stopped", "partial_resumable"} || s.restartEligibility == "eligible" {
        if total.None? {
          reason := "quota_remaining_unknown";
        } else if total.value > 0 {
          allowed := true;
        } else {
          reason := "no_quota_remaining";
        }
      } else if s.terminationClass == "unknown" || s.restartEligibility == "unknown" {
        reason := "unknown_resume_inputs";
      } else {
        reason := "restart_not_allowed_for_termination_class";
      }
    }
    var retry := Max(0, current - 1);
    var nextRetry := Some(retry + 1);
    if allowed && retry + 1 > retries {
      allowed := false;
      reason := "auto_restart_retries_exhausted";
      nextAttempt, nextRetry := None, None;
    }
    if allowed && !AllDecided(phases) {
      allowed := false;
      reason := "phase_plan_unknown";
    }
    plan := Plan(allowed, if allowed then "" else reason, current, nextAttempt, retry, nextRetry, retries, phases,
                 Quotas(FollowRemaining(s), UnfollowRemaining(s), total));
  }

  // -----------------------------------------------------------------------
  // The plan, by the fields of the summary

  /** A stop for the exhausted visible window may be resumed when the outcome says that it is resumable, or the
      rotation was safe and the surface not ambiguous; any other stop may. */
  predicate SafeStop(s: Summary) {
    Text.Strip(s.stopText) == "visible_window_exhausted_scroll_failed" ==>
      s.outcomeResumable || (s.rotationSafeAfterScroll && !s.surfaceAmbiguous)
  }

  predicate Clean(s: Summary) {
    !s.runtimeInternalError && s.unsafeMarkers == []
  }

  /** Nothing about the session itself stands against a restart. */
  predicate Open(s: Summary) {
    && Clean(s) && s.terminationClass != "completed"
    && s.restartEligibility != "not_needed" && s.restartEligibility != "blocked"
    && SafeStop(s)
  }

  predicate Partial(s: Summary) {
    || s.terminationClass == "partial_safe_stopped" || s.terminationClass == "partial_resumable"
    || s.restartEligibility == "eligible"
  }

  /** When a restart is allowed, by fields of the summary and of the plan: nothing unsafe, a session that is neither
      completed nor barred, stopped at a safe place and resumable; known quota left, retries left, and every phase
      decided. */
  lemma RestartAllowedExactly(plan: Plan, s: Summary, maxRetries: Option<int>)
    requires IsPlanOf(plan, s, maxRetries)
    ensures plan.restartAllowed
       <==> && Open(s) && Partial(s)
            && plan.remaining.total.Some? && plan.remaining.total.value > 0
            && plan.attemptId <= plan.maxRetries && 1 <= plan.maxRetries
            && plan.phases.welcome.Some? && plan.phases.follow.Some? && plan.phases.unfollow.Some?
    ensures plan.restartAllowed <==> plan.blockReason == ""
  {
    hide Text.Strip, PhasesOf, TotalRemaining, CurrentAttempt, FollowRemaining, UnfollowRemaining, Commas;
  }

  /** The reason given when a restart is not allowed, for every summary. */
  lemma BlockReasonExactly(plan: Plan, s: Summary, maxRetries: Option<int>)
    requires IsPlanOf(plan, s, maxRetries)
    ensures var reason, total := plan.blockReason, plan.remaining.total;
            && (s.runtimeInternalError ==> reason == "runtime_internal_error_same_generation")
            && (!s.runtimeInternalError && s.unsafeMarkers != [] ==>
                  reason == "unsafe_markers:" + Commas(s.unsafeMarkers))
            && (Clean(s) && s.terminationClass == "completed" ==> reason == "session_completed")
            && (Clean(s) && s.terminationClass != "completed" ==>
                  && (s.restartEligibility == "not_needed" ==> reason == "restart_not_needed")
                  && (s.restartEligibility == "blocked" ==> reason == "restart_eligibility_blocked")
                  && (s.restartEligibility != "not_needed" && s.restartEligibility != "blocked" && !SafeStop(s) ==>
                        reason == "unsafe_follow_resume_checkpoint"))
            && (Open(s) && !Partial(s) ==>
                  if s.terminationClass == "unknown" || s.restartEligibility == "unknown"
                  then reason == "unknown_resume_inputs"
                  else reason == "restart_not_allowed_for_termination_class")
            && (Open(s) && Partial(s) ==>
                  && (total.None? ==> reason == "quota_remaining_unknown")
                  && (total.Some? && total.value <= 0 ==> reason == "no_quota_remaining")
                  && (total.Some? && total.value > 0 && Max(1, plan.attemptId) > plan.maxRetries ==>
                        reason == "auto_restart_retries_exhausted")
                  && (total.Some? && total.value > 0 && Max(1, plan.attemptId) <= plan.maxRetries ==>
                        reason == if AllDecided(plan.phases) then "" else "phase_plan_unknown"))
  {
    hide Text.Strip, PhasesOf, TotalRemaining, CurrentAttempt, FollowRemaining, UnfollowRemaining, Commas, AllDecided;
  }

  /** The first value that a lookup found. */
  ghost predicate Found(values: seq<Option<int>>, n: int) {
    exists k :: 0 <= k < |values| && values[k] == Some(n) && forall j :: 0 <= j < k ==> values[j].None?
  }

  ghost predicate NothingFound(values: seq<Option<int>>) {
    forall k :: 0 <= k < |values| ==> values[k].None?
  }

  lemma {:induction false} FirstKnownExact(values: seq<Option<int>>)
    ensures FirstKnown(values).Some? ==> Found(values, FirstKnown(values).value)
    ensures forall n :: Found(values, n) ==> FirstKnown(values) == Some(n)
    ensures FirstKnown(values).None? <==> NothingFound(values)
  {
    if values != [] {
      var rest := values[1..];
      FirstKnownExact(rest);
      assert forall k :: 0 <= k < |rest| ==> rest[k] == values[k + 1];
      if values[0].None? && FirstKnown(values).Some? {
        var k :| 0 <= k < |rest| && rest[k] == FirstKnown(values) && forall j :: 0 <= j < k ==> rest[j].None?;
        assert forall j :: 0 <= j < k + 1 ==> values[j] == if j == 0 then values[0] else rest[j - 1];
        assert values[k + 1] == FirstKnown(values);
      }
    }
  }

  /** What is left of a quota: the goal less what is done, and nothing when more is done. */
  ghost predicate Remains(targets: seq<Option<int>>, done: int, n: int) {
    exists target :: Found(targets, target) && n == if target >= done then target - done else 0
  }

  /** The attempts that a plan names: the summary's own, or 1; and the next ones, unless the retries are used up. */
  lemma PlanAttempts(plan: Plan, s: Summary, maxRetries: Option<int>)
    requires IsPlanOf(plan, s, maxRetries)
    ensures forall n :: Found(s.attemptIds, n) ==> plan.attemptId == n
    ensures NothingFound(s.attemptIds) ==> plan.attemptId == 1
    ensures plan.retryIndex == if plan.attemptId >= 1 then plan.attemptId - 1 else 0
    ensures plan.maxRetries == if maxRetries.None? then 2 else if maxRetries.value >= 0 then maxRetries.value else 0
    ensures plan.nextAttemptId.Some? ==> plan.nextAttemptId.value == plan.attemptId + 1 <= 3
    ensures plan.nextRetryIndex.Some? ==> plan.nextRetryIndex.value == plan.retryIndex + 1
    ensures var exhausted := plan.blockReason == "auto_restart_retries_exhausted";
            && (plan.nextAttemptId.Some? <==> plan.attemptId < 3 && !exhausted)
            && (plan.nextRetryIndex.Some? <==> !exhausted)
  {
    FirstKnownExact(s.attemptIds);
    if s.unsafeMarkers != [] {
      assert ("unsafe_markers:" + Commas(s.unsafeMarkers))[0] == 'u';
    }
    hide Text.Strip, PhasesOf, TotalRemaining, FollowRemaining, UnfollowRemaining, Commas, Found;
  }

  /** What a plan says is left, and by which fields. */
  lemma PlanQuotas(plan: Plan, s: Summary, maxRetries: Option<int>)
    requires IsPlanOf(plan, s, maxRetries)
    ensures var excluded := s.followExcluded && Text.Strip(s.followPhaseStatus) == "skipped_cleanly";
            forall n :: plan.remaining.follow == Some(n)
              <==> if excluded then n == 0
                   else if s.followRemaining.Some? then n == s.followRemaining.value
                   else s.followsCompleted.Some? && Remains(s.followTargets, s.followsCompleted.value, n)
    ensures var o := s.unfollowOutcome.phaseStatus;
            forall n :: plan.remaining.unfollow == Some(n)
              <==> if o == "quota_reached" || o == "candidates_exhausted" || o == "disabled" then n == 0
                   else if !NothingFound(s.unfollowRemaining) then Found(s.unfollowRemaining, n)
                   else exists done :: Found(s.unfollowsDone, done) && Remains(s.unfollowTargets, done, n)
    ensures var f, u := plan.remaining.follow, plan.remaining.unfollow;
            && (plan.remaining.total.Some? <==> f.Some? || u.Some?)
            && (plan.remaining.total.Some? ==>
                  plan.remaining.total.value == (if f.Some? then f.value else 0) + if u.Some? then u.value else 0)
  {
    FirstKnownExact(s.followTargets);
    FirstKnownExact(s.unfollowTargets);
    FirstKnownExact(s.unfollowsDone);
    FirstKnownExact(s.unfollowRemaining);
    hide Text.Strip, PhasesOf, CurrentAttempt, BlockReason, RetriesExhausted, FirstKnown, Found, NothingFound;
  }

  /** Which phases a plan lets run, which it leaves out, and which it does not decide. */
  lemma PlanPhases(plan: Plan, s: Summary, maxRetries: Option<int>, scope: FD.Scope)
    requires IsPlanOf(plan, s, maxRetries)
    ensures var p, status := plan.phases.welcome, Text.Strip(s.welcomeStatus);
            && (p == Some(true) <==>
                  s.welcomeEnabled == Some(true) && status != "" && status != "skipped" && status != "completed")
            && (p == Some(false) <==> s.welcomeEnabled == Some(false) || status == "skipped" || status == "completed")
    ensures plan.phases.recovery <==> FD.Validate(s.followDecision, 53, scope).Valid?
    ensures var p, left := plan.phases.follow, plan.remaining.follow;
            && (p == Some(true) <==> !plan.phases.recovery && left.Some? && left.value > 0)
            && (p == Some(false) <==> plan.phases.recovery || (left.Some? && left.value <= 0))
    ensures var p, o, left := plan.phases.unfollow, s.unfollowOutcome, plan.remaining.unfollow;
            var over := o.phaseStatus == "quota_reached" || o.phaseStatus == "candidates_exhausted"
                        || o.phaseStatus == "disabled";
            var checkpointed := && o.phaseStatus == "partial_resumable" && o.resumeRecommended
                                && o.remainingCount.Some? && o.remainingCount.value > 0
                                && Text.Strip(o.lastSafeCheckpoint) != "";
            && (p == Some(true) <==>
                  checkpointed || (!over && left.Some? && left.value > 0 && s.mandatoryUnfollowDone == Some(false)))
            && (p.None? <==> !over && !checkpointed && left.None? && s.mandatoryUnfollowDone != Some(true))
  {
    hide Text.Strip, CurrentAttempt, FollowRemaining, BlockReason, RetriesExhausted, FirstKnown;
  }

  /** An allowed plan stays within the retries; it has every phase decided and positive known quota;
      and it names the next attempt, one above the current, exactly when the current one is below
      the built-in total of three. */
  lemma AllowedPlan(plan: Plan, s: Summary, maxRetries: Option<int>)
    requires IsPlanOf(plan, s, maxRetries) && plan.restartAllowed && plan.attemptId >= 1
    ensures plan.attemptId <= plan.maxRetries
    ensures AllDecided(plan.phases)
    ensures plan.remaining.total.Some? && plan.remaining.total.value > 0
    ensures plan.nextRetryIndex == Some(plan.attemptId)
    ensures plan.nextAttemptId == Some(plan.attemptId + 1) <==> plan.attemptId < TOTAL_ATTEMPTS
    ensures plan.maxRetries <= MAX_RETRIES_DEFAULT ==> plan.nextAttemptId == Some(plan.attemptId + 1)
  {
    hide Text.Strip, FD.Validate, FollowRemaining, UnfollowRemaining, WelcomePhase, FollowPhase, UnfollowPhase,
      CurrentAttempt, InitialBlock;
  }
}
