/** What a reply of the engine means for the rotation, read on its fields alone: no helper and no constant of
    the loop occurs here, so that the theorems about runs rest on the fields. */
module Replies {
  import opened Options
  import Text
  import FD = FollowDecision
  import opened Rotation

  /** The reason an attempt stopped: the stop reason, or for want of it the session outcome. */
  function ReasonText(r: Reply): string {
    if r.stopReason != "" then r.stopReason else r.sessionOutcome
  }

  function CountOf(r: Reply): int {
    if r.completed.Some? then r.completed.value else 0
  }

  /** The exit code, or one of eight tokens in the outcome or in the stop reason, says that the target is used up;
      letter case does not matter. */
  ghost predicate SaysExhausted(r: Reply) {
    || r.exitCode == 66
    || TokenIn(r.sessionOutcome) || TokenIn(r.stopReason)
  }

  ghost predicate TokenIn(text: string) {
    var t := Text.Lower(Text.Strip(text));
    || Text.Contains(t, "followers_engine_sparse_exhausted")
    || Text.Contains(t, "no_candidates_after_sparse_scrolls")
    || Text.Contains(t, "list_progressive_exploration_exhausted")
    || Text.Contains(t, "no_followable_candidates_bounded_exploration")
    || Text.Contains(t, "no_followable_candidates_after_bounded_exploration")
    || Text.Contains(t, "bounded_exploration_exhausted")
    || Text.Contains(t, "followers_suggestions_boundary")
    || Text.Contains(t, "suggestions_boundary_confirmed")
  }

  /** The target's follows of this run are made: as many are counted as were asked for, and at least one. */
  predicate UsesUpBudget(r: Reply, budget: int) {
    CountOf(r) >= budget && CountOf(r) >= 1
  }

  /** No See More is left unfinished on the target. */
  predicate ListSettled(r: Reply) {
    && r.seeMoreStatus != "see_more_available" && r.seeMoreStatus != "see_more_clicking"
    && r.seeMoreStatus != "see_more_expansion_wait" && r.seeMoreStatus != "see_more_failed_recoverable"
  }

  /** The failure is one of this target alone. */
  predicate FailsLocally(r: Reply) {
    var outcome := Text.Strip(if r.targetOutcome != "" then r.targetOutcome else r.sessionOutcome);
    || r.localFailure
    || outcome == "target_unavailable_retryable" || outcome == "target_open_failed_retryable"
    || outcome == "target_open_failed_terminal" || outcome == "target_recovery_failed"
    || outcome == "target_skipped_current_attempt"
  }

  /** Nothing was counted and nothing completed, and the engine calls the skip safe. */
  predicate Skippable(r: Reply) {
    r.safeToSkip && !r.targetCompleted && CountOf(r) == 0
  }

  /** Only an envelope may explain this exit. */
  predicate NeedsEnvelope(r: Reply, decision: Option<FD.Decision>) {
    r.exitCode == 53 || (r.exitCode == 97 && decision.Some?)
  }

  /** The stop reasons that end the rotation whatever else the reply says. */
  predicate EndsRotation(reason: string) {
    || reason == "evaluation_barrier_reached" || reason == "follow60_evaluation_barrier_reached"
    || reason == "global_follow_cap_reached"
    || reason == "follow_to_unfollow_time_handoff" || reason == "scheduled_business_deadline"
  }

  /** The first of four texts that is not empty. */
  function FirstOf(a: string, b: string, c: string, d: string): string {
    if a != "" then a else if b != "" then b else if c != "" then c else d
  }

  /** What a failure of the target alone is reported as. */
  function LocalText(r: Reply): string {
    var told := FirstOf(r.firstCausalReason, r.stopReason, r.targetReason, if r.exitCode != 0 then "exit_code" else "");
    if Text.Strip(told) != "" then Text.Strip(told) else "target_local_outcome_unknown"
  }

  /** The branch of a reply, by its fields. `accepted`: the envelope is valid for its exit. */
  ghost function BranchFor(r: Reply, decision: Option<FD.Decision>, accepted: bool, budget: int): Branch {
    var reason := ReasonText(r);
    if NeedsEnvelope(r, decision) then if accepted then AcceptedEnvelope else InvalidEnvelope
    else if reason == "evaluation_barrier_reached" || reason == "follow60_evaluation_barrier_reached" then
      EvaluationBarrier
    else if reason == "global_follow_cap_reached" then CapReported
    else if reason == "follow_to_unfollow_time_handoff" || reason == "scheduled_business_deadline" then TimeStop
    else if SaysExhausted(r) then TargetExhausted
    else if UsesUpBudget(r, budget) then TargetBudget
    else if FailsLocally(r) then TargetLocalFailure
    else if reason == "visible_window_exhausted_scroll_failed" || reason == "pre_scroll_continuation_ambiguous" then
      NoRotation
    else if reason == "see_more_click_exhausted_after_bounded_recovery" then SafePartial
    else Unexplained
  }

  /** How a reply ends the rotation that does not go on after it. `accepted`: the envelope is valid for its exit. */
  ghost function HaltFor(r: Reply, decision: Option<FD.Decision>, accepted: bool, budget: int, capMet: bool,
                         earlierPartials: nat, more: bool, truncated: bool): Halt
  {
    var reason := ReasonText(r);
    var unsettled := Halt("see_more_pending_rotation_forbidden", r.exitCode, false);
    match BranchFor(r, decision, accepted, budget)
    case InvalidEnvelope => Halt("follow_termination_decision_invalid", 96, true)
    case AcceptedEnvelope =>
      Halt(FirstOf(if decision.Some? then decision.value.firstCausalReason else "", r.firstCausalReason, r.stopReason,
                   if r.exitCode == 97 then "follow_to_unfollow_time_handoff"
                   else "follow60_candidate_local_post_follow_recovery_required"),
           r.exitCode, true)
    case EvaluationBarrier => Halt("follow60_evaluation_barrier_reached", 0, false)
    case CapReported => Halt("global_follow_cap_reached", 0, false)
    case TimeStop => Halt(reason, 97, false)
    case TargetExhausted =>
      if more then unsettled
      else Halt(if truncated then "max_targets_per_run_reached" else "all_targets_exhausted", 0, false)
    case TargetBudget =>
      if capMet || !more then Halt(if capMet then "global_follow_cap_reached" else "target_budget_reached", 0, false)
      else unsettled
    case TargetLocalFailure =>
      Halt(if Skippable(r) then "all_targets_temporarily_unavailable" else LocalText(r), r.exitCode, false)
    case SafePartial =>
      if more && earlierPartials == 0 && !ListSettled(r) then unsettled
      else Halt(if earlierPartials > 0 then "safe_partial_ct_failure_limit_reached"
                else if more then "partial_ct_rotation_revalidation_failed" else reason,
                r.exitCode, false)
    case NoRotation => Halt(reason, r.exitCode, false)
    case Unexplained =>
      Halt(FirstOf(r.firstCausalReason, r.stopReason, r.sessionOutcome, "exit_code"), r.exitCode, false)
  }

  // -----------------------------------------------------------------------
  // The loop's own readings agree

  lemma NonEmptyContains(parts: seq<string>, p: string)
    requires p != "" && Text.SpaceFree(p)
    ensures Text.Contains(Text.Join(NonEmpty(parts)), p) <==> exists part :: part in parts && Text.Contains(part, p)
  {
    var kept := NonEmpty(parts);
    Text.JoinContains(kept, p);
    assert !Text.Contains("", p);
    if k :| 0 <= k < |kept| && Text.Contains(kept[k], p) {
      assert kept[k] in kept;
    }
    if part :| part in parts && Text.Contains(part, p) {
      assert part in kept;
    }
  }

  ghost predicate Solid(s: string) {
    forall i :: 0 <= i < |s| ==> s[i] != ' '
  }

  lemma LongTokensAreSolid()
    ensures Solid("no_followable_candidates_bounded_exploration")
    ensures Solid("no_followable_candidates_after_bounded_exploration")
  {
    assert Solid("no_followable_candidates_");
  }

  lemma FirstTokensAreSolid()
    ensures Solid("followers_engine_sparse_exhausted") && Solid("no_candidates_after_sparse_scrolls")
    ensures Solid("list_progressive_exploration_exhausted")
  {
  }

  lemma LastTokensAreSolid()
    ensures Solid("bounded_exploration_exhausted") && Solid("followers_suggestions_boundary")
    ensures Solid("suggestions_boundary_confirmed")
  {
  }

  lemma SolidIsSpaceFree(s: string)
    requires Solid(s)
    ensures Text.SpaceFree(s)
  {
  }

  lemma TokensArePlain(k: nat)
    requires k < |EXHAUSTION_TOKENS|
    ensures EXHAUSTION_TOKENS[k] != "" && Text.SpaceFree(EXHAUSTION_TOKENS[k])
  {
    hide Solid, Text.SpaceFree;
    FirstTokensAreSolid();
    LongTokensAreSolid();
    LastTokensAreSolid();
    SolidIsSpaceFree(EXHAUSTION_TOKENS[k]);
  }

  /** Searching the joined text is searching its two parts. */
  lemma ExhaustedExactly(r: Reply)
    ensures Exhausted(r) <==> SaysExhausted(r)
  {
    var outcome, reason := Text.Lower(Text.Strip(r.sessionOutcome)), Text.Lower(Text.Strip(r.stopReason));
    var parts := [outcome, reason, outcome, reason];
    assert ExhaustionText(r) == Text.Join(NonEmpty(parts));
    forall k | 0 <= k < |EXHAUSTION_TOKENS|
      ensures Text.Contains(ExhaustionText(r), EXHAUSTION_TOKENS[k])
         <==> Text.Contains(outcome, EXHAUSTION_TOKENS[k]) || Text.Contains(reason, EXHAUSTION_TOKENS[k])
    {
      TokensArePlain(k);
      NonEmptyContains(parts, EXHAUSTION_TOKENS[k]);
      assert outcome in parts && reason in parts;
    }
    assert Text.ContainsAny(ExhaustionText(r), EXHAUSTION_TOKENS)
      <==> Text.ContainsAny(outcome, EXHAUSTION_TOKENS) || Text.ContainsAny(reason, EXHAUSTION_TOKENS);
    TokenExactly(r.sessionOutcome);
    TokenExactly(r.stopReason);
    hide TokenIn, Text.ContainsAny;
  }

  lemma TokenExactly(text: string)
    ensures TokenIn(text) <==> Text.ContainsAny(Text.Lower(Text.Strip(text)), EXHAUSTION_TOKENS)
  {
    hide Text.Contains, Text.Strip, Text.Lower;
    var tokens := EXHAUSTION_TOKENS;
    assert |tokens| == 8
      && tokens[0] == "followers_engine_sparse_exhausted" && tokens[1] == "no_candidates_after_sparse_scrolls"
      && tokens[2] == "list_progressive_exploration_exhausted"
      && tokens[3] == "no_followable_candidates_bounded_exploration"
      && tokens[4] == "no_followable_candidates_after_bounded_exploration"
      && tokens[5] == "bounded_exploration_exhausted" && tokens[6] == "followers_suggestions_boundary"
      && tokens[7] == "suggestions_boundary_confirmed";
  }

  lemma ReadingsAgree(r: Reply, decision: Option<FD.Decision>, budget: int)
    ensures StopText(r) == ReasonText(r)
    ensures Exhausted(r) <==> SaysExhausted(r)
    ensures BudgetReached(r, budget) <==> UsesUpBudget(r, budget)
    ensures SeeMoreSettled(r) <==> ListSettled(r)
    ensures IsLocalFailure(r) <==> FailsLocally(r)
    ensures SafeToSkip(r) <==> FailsLocally(r) && Skippable(r)
    ensures LocalReason(r) == LocalText(r)
    ensures Authoritative(r.exitCode, decision) <==> NeedsEnvelope(r, decision)
    ensures ReasonText(r) in EVALUATION_BARRIERS || ReasonText(r) in TIME_STOPS || ReasonText(r) == CAP_REACHED
       <==> EndsRotation(ReasonText(r))
  {
    ExhaustedExactly(r);
    hide Exhausted, SaysExhausted, Text.Strip;
  }
}
