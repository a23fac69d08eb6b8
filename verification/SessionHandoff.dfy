/** The composed session: from the end of the Follow rotation, through a late cooperative handoff, to the
    dispatch of Unfollow; and what the safety signals of the Follow summary have to do with it. */
module SessionHandoff {
  import opened Options
  import Text
  import C = ClaimValidation
  import FD = FollowDecision
  import RT = RotationTargets
  import R = Rotation
  import Facts = RotationTheorems
  import FO = FollowOutcome
  import H = Handoff

  /** What the rotation leaves: its exit code, whether an envelope decided, the envelope in the summary of its
      last attempt, the follows counted, that summary's safety signals, and the contract that the result is merged
      into when no envelope decided. */
  datatype FollowEnd = FollowEnd(
    exit: int, isSealed: bool, decision: Option<FD.Decision>, total: int, signals: FD.Signals, contract: FO.Contract)

  function EndOf(s: R.Setup, rest: FO.Rest): FollowEnd
    requires R.Rotate(s).attempts != []
  {
    var o := R.Rotate(s);
    var a := o.attempts[|o.attempts| - 1];
    FollowEnd(o.exitCode, o.sealed, a.decision, o.total, a.reply.signals, FO.Merged(o, rest))
  }

  function LastReply(s: R.Setup): R.Reply
    requires R.Rotate(s).attempts != []
  {
    var o := R.Rotate(s);
    o.attempts[|o.attempts| - 1].reply
  }

  /** A Follow outcome that is no termination decision: it carries no schema. */
  function WithoutSchema(phaseStatus: string, scope: string, safeNextStep: string, safeBoundary: bool, reason: string)
    : FD.Decision
  {
    FD.Decision("", "", None, phaseStatus, scope, "", reason, safeBoundary, safeNextStep, false, false, None, None,
                false, false, false, false, false, None, None, false)
  }

  function Contracted(c: FO.Contract): FD.Decision {
    WithoutSchema(c.phaseStatus, c.scope, c.nextStep, c.boundary, c.reason)
  }

  /** The envelope after `_finalize_late_cooperative_follow_handoff_summary`: the one that is there, or one built
      for exit 97 when the summary carries no global blocker. */
  function LateEnvelope(e: FollowEnd, scope: FD.Scope): Option<FD.Decision> {
    if e.decision.Some? then e.decision
    else if e.exit == 97 && FD.GlobalBlockers(e.signals) == [] then Some(FD.TimeHandoffDecision(e.total, scope, true))
    else None
  }

  /** `late`: the session finds a cooperative request for the time handoff after the rotation. */
  function OutcomeOf(e: FollowEnd, scope: FD.Scope, late: bool): H.Outcome {
    if late && R.Accepted(e.exit, LateEnvelope(e, scope), scope) then LateEnvelope(e, scope)
    else if !e.isSealed then Some(Contracted(e.contract))
    else if e.exit == 96 then
      Some(WithoutSchema("blocked_critical", "account_session", "manual_review", false,
                         "follow_termination_decision_invalid"))
    else e.decision
  }

  /** Nothing in the outcome but status, scope, next step, boundary and reason: no schema, no exit, no flag. */
  predicate Plain(d: FD.Decision, phaseStatus: string, scope: string, next: string, boundary: bool, reason: string) {
    && d.phaseStatus == phaseStatus && d.scope == scope && d.safeNextStep == next && d.safeBoundary == boundary
    && d.stableReason == reason && d.schema == "" && d.schemaVersion == "" && d.firstCausalReason == ""
    && d.exitCode.None? && d.binding.None? && d.completedCount.None? && d.retapAllowed.None?
    && d.rotationAllowed.None? && !d.followRemainingPreserved && !d.noNewFollowAfterDeadline
    && !d.physicalFollowPreserved && !d.receiptPresent && !d.candidateLocalFailure && !d.recoveryRequired
    && !d.noNewFollowUntilRecovered && !d.attributed
  }

  /** What the session takes for the outcome of Follow: an accepted late envelope; else the contract of the merged
      result, the critical block of exit 96, or the rotation's envelope. */
  lemma OutcomeOfExactly(e: FollowEnd, scope: FD.Scope, late: bool)
    ensures var outcome, envelope := OutcomeOf(e, scope, late), LateEnvelope(e, scope);
            var accepted := late && (e.exit == 53 || (e.exit == 97 && envelope.Some?))
                            && FD.Validate(envelope, e.exit, scope).Valid?;
            && (accepted ==> outcome == envelope)
            && (!accepted && !e.isSealed ==>
                  outcome.Some? && Plain(outcome.value, e.contract.phaseStatus, e.contract.scope, e.contract.nextStep,
                                         e.contract.boundary, e.contract.reason))
            && (!accepted && e.isSealed && e.exit == 96 ==>
                  outcome.Some? && Plain(outcome.value, "blocked_critical", "account_session", "manual_review", false,
                                         "follow_termination_decision_invalid"))
            && (!accepted && e.isSealed && e.exit != 96 ==> outcome == e.decision)
  {
    hide FD.Validate, LateEnvelope;
  }

  /** The facts on which Unfollow is decided in a session that has run Follow. */
  function AfterFollow(f: H.Facts, e: FollowEnd, late: bool): H.Facts {
    f.(exit := Some(e.exit), executed := true, outcome := OutcomeOf(e, f.scope, late))
  }

  // -----------------------------------------------------------------------
  // What a rotation can leave

  /** A sealed end is an accepted envelope or exit 96; an end that is not sealed is never exit 53. */
  predicate Consistent(e: FollowEnd, scope: FD.Scope) {
    if e.isSealed then e.exit == 96 || R.Accepted(e.exit, e.decision, scope) else e.exit != 53
  }

  lemma UnsealedExit(branch: R.Branch, r: R.Reply, decision: Option<FD.Decision>, capMet: bool, partials: nat,
                     more: bool, truncated: bool, fastOk: bool, halt: R.Halt)
    requires R.VerdictOf(branch, r, decision, capMet, partials, more, truncated, fastOk) == R.Stop(halt)
    requires !halt.sealed
    ensures halt.exitCode == 0 || halt.exitCode == 97 || halt.exitCode == r.exitCode
  {
    hide R.SeeMoreSettled, R.BoundarySafe, R.SafeToSkip, R.StopText, R.LocalReason, R.Or;
  }

  lemma UnsealedRotation(s: R.Setup)
    requires RT.DistinctKeys(s.listed) && s.listed != []
    ensures var o := R.Rotate(s);
            o.attempts != [] && (!o.sealed ==> o.exitCode in {0, 97, o.attempts[|o.attempts| - 1].reply.exitCode})
  {
    hide R.Rotate, R.MaxTargets, R.BranchOf, R.VerdictOf, Facts.Licensed, Facts.SafePartials, R.CapMet;
    Facts.RotationEnd(s);
    var o := R.Rotate(s);
    var n := |o.attempts|;
    if !(n < |s.Targets()| && Facts.Licensed(s, o.attempts, n - 1)) && !o.sealed {
      var a := o.attempts[n - 1];
      UnsealedExit(a.branch, a.reply, a.decision, R.CapMet(a.goal, a.total), Facts.SafePartials(o.attempts, n),
                   n < |s.Targets()|, s.Truncated(), s.fast(n - 1), R.Halt(o.reason, o.exitCode, o.sealed));
    }
  }

  lemma EndDecision(s: R.Setup, rest: FO.Rest)
    requires RT.DistinctKeys(s.listed) && s.listed != []
    ensures R.Rotate(s).attempts != []
    ensures exists total :: EndOf(s, rest).decision == R.FinalDecision(LastReply(s), s.scope, total)
  {
    hide R.Run, R.Rotate, R.MaxTargets, R.BranchOf, R.VerdictOf, R.FinalDecision, R.NewTotal, R.NewGoal,
      Facts.Licensed, Facts.StartsFromProof, R.MaxFollowsPerTarget, Facts.Finished;
    LastAccounted(s);
    var attempts := R.Rotate(s).attempts;
    var k := |attempts| - 1;
    var total := Facts.TotalBefore(attempts, k) + attempts[k].reply.completed.GetOr(0);
    assert EndOf(s, rest).decision == R.FinalDecision(LastReply(s), s.scope, total);
  }

  lemma LastAccounted(s: R.Setup)
    requires RT.DistinctKeys(s.listed) && s.listed != []
    ensures var attempts := R.Rotate(s).attempts;
            attempts != [] && Facts.Accounted(s, attempts, |attempts| - 1)
  {
    hide R.Run, R.Rotate, R.MaxTargets, R.VerdictOf, Facts.Licensed, Facts.Accounted, Facts.StartsFromProof,
      Facts.SafePartials;
    Facts.RotateFinishes(s);
  }

  lemma EndConsistent(s: R.Setup, rest: FO.Rest)
    requires RT.DistinctKeys(s.listed) && s.listed != []
    ensures R.Rotate(s).attempts != []
    ensures var e, r := EndOf(s, rest), LastReply(s);
            && Consistent(e, s.scope) && e.signals == r.signals
            && (e.isSealed <==> R.Authoritative(r.exitCode, e.decision))
            && (e.isSealed && e.exit != 96 ==> e.exit == r.exitCode)
  {
    hide R.Rotate, FD.Validate;
    UnsealedRotation(s);
    Facts.EnvelopeDecidesAlone(s);
  }

  /** The end of any rotation is consistent, and its envelope is the engine's own, or was built by the rotation
      for an exact time handoff without a global blocker. */
  lemma EndOfRotation(s: R.Setup, rest: FO.Rest)
    requires RT.DistinctKeys(s.listed) && s.listed != []
    ensures R.Rotate(s).attempts != []
    ensures var e, r := EndOf(s, rest), LastReply(s);
            && Consistent(e, s.scope) && e.signals == r.signals
            && (e.isSealed <==> R.Authoritative(r.exitCode, e.decision))
            && (e.isSealed && e.exit != 96 ==> e.exit == r.exitCode)
            && exists total :: e.decision == R.FinalDecision(r, s.scope, total)
  {
    hide R.Rotate, Consistent, R.Authoritative, R.FinalDecision;
    EndConsistent(s, rest);
    EndDecision(s, rest);
  }

  // -----------------------------------------------------------------------
  // The dispatch after Follow

  /** A merged outcome is never taken for a termination decision. */
  lemma ContractsAreNoDecisions(c: FO.Contract, exit: int, expected: FD.Scope)
    ensures FD.Validate(Some(Contracted(c)), exit, expected).Invalid?
  {
  }

  predicate TimeLeft(f: H.Facts) {
    H.TimeFor(f.business, H.Needed(H.Candidates(f), f.Cap()), f.now)
  }

  /** How Follow has to end for Unfollow: completed as a whole, or with an envelope that the rotation or the late
      handoff has accepted. */
  predicate HandsOver(e: FollowEnd, scope: FD.Scope, late: bool) {
    if e.exit == 0 then !e.isSealed && FO.Completed(e.contract)
    else (e.exit == 53 || e.exit == 97) && (e.isSealed || (late && R.Accepted(e.exit, LateEnvelope(e, scope), scope)))
  }

  /** In a session that has run Follow, Unfollow is dispatched exactly when it is permitted, there is work, Follow
      hands over and, unless Follow ended with exit 0, there is time. */
  lemma DispatchAfterFollow(f: H.Facts, e: FollowEnd, late: bool)
    requires C.RunsFollow(f.policy, f.afterWelcome) && Consistent(e, f.scope)
    ensures H.Dispatch(AfterFollow(f, e, late)).Some?
       <==> && H.Permitted(f) && H.HasWork(f) && HandsOver(e, f.scope, late)
            && (e.exit == 0 || TimeLeft(f))
  {
    var g := AfterFollow(f, e, late);
    H.DispatchExactly(g);
    NotResumeOnly(f);
    SameWork(f, e, late);
    LicensedAfterFollow(f, e, late);
    hide H.Dispatch, H.Licensed, H.Permitted, H.HasWork, HandsOver, OutcomeOf, TimeLeft;
  }

  lemma NotResumeOnly(f: H.Facts)
    requires C.RunsFollow(f.policy, f.afterWelcome)
    ensures !f.ResumeOnly()
  {
  }

  lemma SameWork(f: H.Facts, e: FollowEnd, late: bool)
    ensures var g := AfterFollow(f, e, late);
            H.Permitted(g) == H.Permitted(f) && H.HasWork(g) == H.HasWork(f) && TimeLeft(g) == TimeLeft(f)
            && g.ResumeOnly() == f.ResumeOnly()
  {
    hide OutcomeOf, H.EnabledFor, H.KnownMode, H.AnyMode, H.TimeFor, H.RuntimeCap;
  }

  lemma LicensedAfterFollow(f: H.Facts, e: FollowEnd, late: bool)
    requires !f.ResumeOnly() && Consistent(e, f.scope)
    ensures H.Licensed(AfterFollow(f, e, late))
       <==> HandsOver(e, f.scope, late) && (e.exit == 0 || TimeLeft(f))
  {
    SameWork(f, e, late);
    ContractsAreNoDecisions(e.contract, e.exit, f.scope);
    var g := AfterFollow(f, e, late);
    hide FD.Validate, FD.GlobalBlockers, H.TimeFor, H.AnyMode, FD.TimeHandoffDecision, H.RuntimeCap;
    assert g.exit == Some(e.exit) && g.executed && g.scope == f.scope;
  }

  /** A restarted session whose policy leaves Follow out dispatches Unfollow exactly when the policy plans it, it
      is permitted and there is work, whatever Follow left behind earlier. */
  lemma DispatchWithoutFollow(f: H.Facts, r: C.Request, prior: Option<C.PriorRun>, policy: C.Policy)
    requires C.Grants(r, prior, policy) && policy.phases.follow == Some(false)
    requires f.policy == Some(C.Any(policy))
    ensures H.Dispatch(f).Some? <==> H.Permitted(f) && H.HasWork(f) && policy.phases.unfollow == Some(true)
  {
    H.DispatchExactly(f);
    C.GrantedUnfollowOnly(r, prior, policy, f.afterWelcome);
    hide H.Dispatch, H.HasWork, H.EnabledFor, H.TimeFor, FD.Validate, Text.Strip, C.SchemaAccepted,
      H.GloballyCompleted;
  }

  // -----------------------------------------------------------------------
  // Where the summary's safety signals matter

  /** What an envelope-less exit 97 lacks: no global blocker, and every part of the session's identity known. */
  ghost predicate MayBuild(signals: FD.Signals, scope: FD.Scope) {
    FD.GlobalBlockers(signals) == [] && FD.NonBlankScope(scope)
  }

  lemma LateAccepted(e: FollowEnd, scope: FD.Scope)
    requires e.exit == 97 && e.decision.None?
    ensures R.Accepted(97, LateEnvelope(e, scope), scope) <==> MayBuild(e.signals, scope)
  {
    FD.TimeHandoffDecisionAccepted(e.total, scope, true);
    hide FD.Validate, FD.GlobalBlockers, FD.NonBlankScope, FD.TimeHandoffDecision;
  }

  /** The rotation's own envelope is accepted whenever the identity is known. */
  lemma OwnAccepted(r: R.Reply, scope: FD.Scope, total: int)
    requires r.decision.None? && r.exitCode == 97
    ensures R.Accepted(97, R.FinalDecision(r, scope, total), scope)
       <==> Text.Strip(R.StopText(r)) == FD.TIME_HANDOFF && MayBuild(r.signals, scope)
  {
    FD.TimeHandoffDecisionAccepted(total, scope, true);
    hide FD.Validate, FD.GlobalBlockers, FD.NonBlankScope, FD.TimeHandoffDecision, R.StopText, Text.Strip;
  }

  /** The final reasons after which exit 0 hands over: the two that the loop itself gives, always; an engine's text
      that is one of the four completion reasons up to surrounding blanks, unless the summary holds a critical
      marker. */
  ghost predicate CompletionText(reason: string, rest: FO.Rest) {
    || reason == "global_follow_cap_reached" || reason == "all_targets_exhausted"
    || (FO.Ends(Text.Strip(reason)) && !FO.MarkerIn(rest.diagnostics))
  }

  /** When Follow hands over, by the exit of its rotation and what the engine itself reported. */
  ghost predicate FollowHandsOver(s: R.Setup, late: bool, rest: FO.Rest)
    requires R.Rotate(s).attempts != []
  {
    var o, r := R.Rotate(s), LastReply(s);
    if o.exitCode == 0 then CompletionText(o.reason, rest)
    else if o.exitCode == 53 then true
    else if o.exitCode != 97 then false
    else if r.decision.Some? then r.exitCode == 97 || (late && FD.Validate(r.decision, 97, s.scope).Valid?)
    else MayBuild(r.signals, s.scope)
         && (late || (r.exitCode == 97 && Text.Strip(R.StopText(r)) == FD.TIME_HANDOFF))
  }

  lemma FlagMeansReason(s: R.Setup)
    ensures R.Rotate(s).allExhausted ==> R.Rotate(s).reason == "all_targets_exhausted"
  {
    hide R.Run;
  }

  /** After exit 0 the merged contract alone decides. */
  lemma ContractCompletes(s: R.Setup, rest: FO.Rest)
    requires R.Rotate(s).attempts != []
    ensures FO.Completed(EndOf(s, rest).contract) <==> CompletionText(R.Rotate(s).reason, rest)
  {
    hide R.Rotate, FO.Merged, FO.Completed, FO.MarkerIn, Text.Strip;
    FlagMeansReason(s);
    FO.MergedCompletesExactly(R.Rotate(s), rest);
  }

  lemma HandsOverExactly(s: R.Setup, late: bool, rest: FO.Rest)
    requires RT.DistinctKeys(s.listed) && s.listed != []
    ensures R.Rotate(s).attempts != []
    ensures HandsOver(EndOf(s, rest), s.scope, late) <==> FollowHandsOver(s, late, rest)
  {
    EndOfRotation(s, rest);
    var e, r := EndOf(s, rest), LastReply(s);
    var total :| e.decision == R.FinalDecision(r, s.scope, total);
    ContractCompletes(s, rest);
    hide R.Rotate, FO.Merged, FO.Completed, CompletionText;
    if e.exit == 97 && r.decision.None? {
      if e.decision.None? {
        LateAccepted(e, s.scope);
      }
      if r.exitCode == 97 {
        OwnAccepted(r, s.scope, total);
      }
    }
    hide R.Rotate, FD.Validate, FD.GlobalBlockers, FD.NonBlankScope, FD.TimeHandoffDecision, R.StopText, Text.Strip,
      H.GloballyCompleted;
  }

  // -----------------------------------------------------------------------
  // Exit 0, by the last attempt

  /** The loop's own reasons that leave Follow open. */
  const OPEN := {"target_budget_reached", "see_more_pending_rotation_forbidden", "all_targets_temporarily_unavailable",
                 "safe_partial_ct_failure_limit_reached", "partial_ct_rotation_revalidation_failed",
                 "follow60_evaluation_barrier_reached", "max_targets_per_run_reached",
                 "see_more_click_exhausted_after_bounded_recovery", "visible_window_exhausted_scroll_failed",
                 "pre_scroll_continuation_ambiguous"}

  lemma OpenEnds(reason: string)
    requires reason in OPEN
    ensures reason != "" && 'a' <= reason[0] <= 'z' && 'a' <= reason[|reason| - 1] <= 'z'
  {
    assert "see_more_click_exhausted"[0] == 's';
  }

  lemma OpenReasons(reason: string, rest: FO.Rest)
    requires reason in OPEN
    ensures !CompletionText(reason, rest)
  {
    OpenEnds(reason);
    FO.StripPlain(reason);
    hide Text.Strip;
  }

  /** What the engine itself says, when the loop has no reason of its own. */
  function UnexplainedReason(r: R.Reply): string {
    R.Or(r.firstCausalReason, R.Or(r.stopReason, R.Or(r.sessionOutcome, "exit_code")))
  }

  /** Whether a last attempt completes Follow; `whole` says that no listed target is left. */
  ghost predicate LastCompletes(branch: R.Branch, r: R.Reply, capMet: bool, whole: bool, rest: FO.Rest) {
    match branch
    case CapReported => true
    case TargetBudget => capMet
    case TargetExhausted => whole
    case TargetLocalFailure => !R.SafeToSkip(r) && CompletionText(R.LocalReason(r), rest)
    case Unexplained => CompletionText(UnexplainedReason(r), rest)
    case _ => false
  }

  /** The reason that a verdict of exit 0 gives, branch by branch. */
  ghost predicate ReasonFits(branch: R.Branch, r: R.Reply, capMet: bool, whole: bool, reason: string) {
    match branch
    case CapReported => reason == R.CAP_REACHED
    case TargetBudget => if capMet then reason == R.CAP_REACHED else reason in OPEN
    case TargetExhausted => if whole then reason == "all_targets_exhausted" else reason in OPEN
    case TargetLocalFailure => if R.SafeToSkip(r) then reason in OPEN else reason == R.LocalReason(r)
    case Unexplained => reason == UnexplainedReason(r)
    case _ => reason in OPEN
  }

  lemma VerdictReason(branch: R.Branch, r: R.Reply, decision: Option<FD.Decision>, capMet: bool, partials: nat,
                      more: bool, truncated: bool, fastOk: bool, halt: R.Halt)
    requires R.VerdictOf(branch, r, decision, capMet, partials, more, truncated, fastOk) == R.Stop(halt)
    requires !halt.sealed && halt.exitCode == 0
    requires branch.SafePartial? ==> R.StopText(r) in R.SAFE_PARTIAL_REASONS
    requires branch.NoRotation? ==> R.StopText(r) in R.NO_ROTATION_REASONS
    ensures ReasonFits(branch, r, capMet, !more && !truncated, halt.reason)
  {
    hide R.SeeMoreSettled, R.BoundarySafe, R.SafeToSkip, R.LocalReason, R.Or, R.StopText;
  }

  lemma ReasonCompletes(branch: R.Branch, r: R.Reply, capMet: bool, whole: bool, reason: string, rest: FO.Rest)
    requires ReasonFits(branch, r, capMet, whole, reason)
    ensures CompletionText(reason, rest) <==> LastCompletes(branch, r, capMet, whole, rest)
  {
    hide R.SafeToSkip, R.LocalReason, UnexplainedReason, OPEN, Text.Strip;
    if reason in OPEN {
      OpenReasons(reason, rest);
    }
  }

  lemma VerdictCompletes(r: R.Reply, decision: Option<FD.Decision>, scope: FD.Scope, budget: int, capMet: bool,
                         partials: nat, more: bool, truncated: bool, fastOk: bool, rest: FO.Rest, halt: R.Halt)
    requires var branch := R.BranchOf(r, decision, scope, budget);
             R.VerdictOf(branch, r, decision, capMet, partials, more, truncated, fastOk) == R.Stop(halt)
    requires !halt.sealed && halt.exitCode == 0
    ensures CompletionText(halt.reason, rest)
       <==> LastCompletes(R.BranchOf(r, decision, scope, budget), r, capMet, !more && !truncated, rest)
  {
    hide R.BranchOf, R.VerdictOf, R.StopText, ReasonFits, CompletionText, LastCompletes;
    var branch := R.BranchOf(r, decision, scope, budget);
    BranchTexts(r, decision, scope, budget);
    VerdictReason(branch, r, decision, capMet, partials, more, truncated, fastOk, halt);
    ReasonCompletes(branch, r, capMet, !more && !truncated, halt.reason, rest);
  }

  lemma BranchTexts(r: R.Reply, decision: Option<FD.Decision>, scope: FD.Scope, budget: int)
    ensures var branch := R.BranchOf(r, decision, scope, budget);
            && (branch.SafePartial? ==> R.StopText(r) in R.SAFE_PARTIAL_REASONS)
            && (branch.NoRotation? ==> R.StopText(r) in R.NO_ROTATION_REASONS)
  {
    hide R.Exhausted, R.BudgetReached, R.IsLocalFailure, R.StopText, R.Accepted, R.Authoritative;
  }

  /** Completed after exit 0, by the last attempt: Unfollow is next exactly when the goal is used up before another
      target that may follow, or the last attempt reported the cap, met the goal, exhausted the last listed target,
      or gave a completion reason in its own words. */
  lemma HandsOverByLastAttempt(s: R.Setup, late: bool, rest: FO.Rest)
    requires RT.DistinctKeys(s.listed) && s.listed != []
    ensures R.Rotate(s).attempts != []
    ensures R.Rotate(s).exitCode == 0 ==>
              var attempts := R.Rotate(s).attempts;
              var n := |attempts|;
              var a := attempts[n - 1];
              FollowHandsOver(s, late, rest)
              <==> || (n < |s.Targets()| && Facts.Licensed(s, attempts, n - 1))
                   || LastCompletes(a.branch, a.reply, R.CapMet(a.goal, a.total), n == |s.listed|, rest)
  {
    hide R.Rotate, Facts.EndedBy, Facts.Accounted, Facts.Licensed, CompletionText, LastCompletes, R.MaxTargets;
    EndOfRotation(s, rest);
    Facts.RotationEnd(s);
    LastAccounted(s);
    var o := R.Rotate(s);
    if o.exitCode == 0 {
      assert !o.sealed && FollowHandsOver(s, late, rest) == CompletionText(o.reason, rest);
      LastAttemptCompletes(s, o, rest);
    }
  }

  lemma LastAttemptCompletes(s: R.Setup, o: R.Outcome, rest: FO.Rest)
    requires Facts.EndedBy(s, o) && o.exitCode == 0 && !o.sealed && Facts.Accounted(s, o.attempts, |o.attempts| - 1)
    ensures var n := |o.attempts|;
            var a := o.attempts[n - 1];
            CompletionText(o.reason, rest)
            <==> || (n < |s.Targets()| && Facts.Licensed(s, o.attempts, n - 1))
                 || LastCompletes(a.branch, a.reply, R.CapMet(a.goal, a.total), n == |s.listed|, rest)
  {
    hide R.BranchOf, R.VerdictOf, Facts.Licensed, Facts.SafePartials, R.CapMet, R.MaxTargets, R.MaxFollowsPerTarget,
      R.FinalDecision, R.NewTotal, R.NewGoal, CompletionText, LastCompletes;
    var n := |o.attempts|;
    var a := o.attempts[n - 1];
    if n < |s.Targets()| && Facts.Licensed(s, o.attempts, n - 1) {
      CapCompletes(rest);
    } else {
      VerdictCompletes(a.reply, a.decision, s.scope, a.call.budget, R.CapMet(a.goal, a.total),
                       Facts.SafePartials(o.attempts, n), n < |s.Targets()|, s.Truncated(), s.fast(n - 1), rest,
                       R.Halt(o.reason, o.exitCode, o.sealed));
    }
  }

  lemma CapCompletes(rest: FO.Rest)
    ensures CompletionText(R.CAP_REACHED, rest)
  {
  }

  /** The composed session, exactly: after any rotation, Unfollow is dispatched if and only if it is permitted,
      there is work, Follow hands over and there is time. The Follow summary's safety signals occur in one place
      only: when Follow ended with exit 97 and the engine sent no envelope of its own. */
  lemma DispatchAfterRotation(f: H.Facts, s: R.Setup, late: bool, rest: FO.Rest)
    requires RT.DistinctKeys(s.listed) && s.listed != [] && s.scope == f.scope
    requires C.RunsFollow(f.policy, f.afterWelcome)
    ensures R.Rotate(s).attempts != []
    ensures H.Dispatch(AfterFollow(f, EndOf(s, rest), late)).Some?
       <==> && H.Permitted(f) && H.HasWork(f) && FollowHandsOver(s, late, rest)
            && (R.Rotate(s).exitCode == 0 || TimeLeft(f))
  {
    EndOfRotation(s, rest);
    HandsOverExactly(s, late, rest);
    DispatchAfterFollow(f, EndOf(s, rest), late);
    hide R.Rotate, H.Dispatch, H.Permitted, H.HasWork, HandsOver, FollowHandsOver, TimeLeft, AfterFollow, Consistent;
  }

  /** After exit 53, and after exit 97 with an envelope in the summary, the safety signals of that summary change
      nothing, whatever they are. */
  lemma EnvelopeIgnoresSignals(f: H.Facts, e: FollowEnd, late: bool, other: FD.Signals)
    requires e.exit != 97 || e.decision.Some?
    ensures H.Dispatch(AfterFollow(f, e.(signals := other), late))
         == H.Dispatch(AfterFollow(f, e, late))
  {
    hide H.Dispatch, FD.Validate, FD.GlobalBlockers, FD.TimeHandoffDecision;
    assert LateEnvelope(e.(signals := other), f.scope) == LateEnvelope(e, f.scope);
  }

  /** The summary's signals decide whether the rotation adds an envelope exactly when the engine sent none, with
      exit 97 and the reason of the time handoff. */
  lemma SignalsDecideEnvelope(r: R.Reply, scope: FD.Scope, total: int, other: FD.Signals)
    ensures R.FinalDecision(r.(signals := other), scope, total) != R.FinalDecision(r, scope, total)
       <==> && r.decision.None? && r.exitCode == 97 && Text.Strip(R.StopText(r)) == FD.TIME_HANDOFF
            && (FD.GlobalBlockers(other) == [] <==> FD.GlobalBlockers(r.signals) != [])
  {
    hide FD.GlobalBlockers, Text.Strip, FD.TimeHandoffDecision;
    assert R.StopText(r.(signals := other)) == R.StopText(r);
    hide R.StopText;
  }

  lemma HandsOverUnexplained(s: R.Setup, late: bool, rest: FO.Rest)
    requires R.Rotate(s).attempts != []
    ensures R.Rotate(s).exitCode == 97 && LastReply(s).decision.None? ==>
              var r := LastReply(s);
              FollowHandsOver(s, late, rest)
              <==> MayBuild(r.signals, s.scope)
                   && (late || (r.exitCode == 97 && Text.Strip(R.StopText(r)) == FD.TIME_HANDOFF))
  {
    hide R.Rotate, CompletionText, MayBuild, R.StopText, Text.Strip, FD.Validate;
  }

  /** Exactly when a global blocker stops a dispatch: Follow ended with exit 97, the engine sent no envelope, and
      everything else, the late or the exact time handoff included, spoke for it. */
  lemma BlockerStopsExactly(f: H.Facts, s: R.Setup, late: bool, rest: FO.Rest)
    requires RT.DistinctKeys(s.listed) && s.listed != [] && s.scope == f.scope
    requires C.RunsFollow(f.policy, f.afterWelcome)
    ensures R.Rotate(s).attempts != []
    ensures R.Rotate(s).exitCode == 97 && LastReply(s).decision.None? ==>
              var r := LastReply(s);
              H.Dispatch(AfterFollow(f, EndOf(s, rest), late)).Some?
              <==> && MayBuild(r.signals, f.scope) && H.Permitted(f) && H.HasWork(f) && TimeLeft(f)
                   && (late || (r.exitCode == 97 && Text.Strip(R.StopText(r)) == FD.TIME_HANDOFF))
  {
    DispatchAfterRotation(f, s, late, rest);
    HandsOverUnexplained(s, late, rest);
    hide R.Rotate, H.Dispatch, H.Permitted, H.HasWork, TimeLeft, AfterFollow, FollowHandsOver, MayBuild, R.StopText,
      Text.Strip;
  }
}
