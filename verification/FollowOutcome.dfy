/** The Follow outcome contract: what a rotation's result means for the rest of the session. */
module FollowOutcome {
  import opened Options
  import Text
  import RT = RotationTargets
  import R = Rotation

  const LOCAL_ROTATABLE := {"visible_window_exhausted_scroll_failed"}
  const GLOBAL_COMPLETION := {"global_follow_cap_reached", "follow_target_reached", "follow_quota_reached",
                              "all_targets_exhausted"}
  const RESUMABLE := {"max_targets_per_run_reached", "safe_partial_ct_failure_limit_reached", "target_budget_reached"}
  const CRITICAL_MARKERS: seq<string> := ["account_mismatch", "active_instagram_account_mismatch", "challenge",
    "instagram_checkpoint", "checkpoint_required", "credential", "password", "login_required", "restriction",
    "restricted"]

  /** What `build_follow_outcome` is given. `target` is the goal, `targetsLeft` says that target ids remain, and
      `diagnostics` is the text of the extra diagnostics, "" for none. */
  datatype Inputs = Inputs(
    reason: string,
    verified: int,
    target: Option<int>,
    targetsLeft: bool,
    allExhausted: bool,
    deadlineInsufficient: bool,
    internalFailure: bool,
    currentExhausted: bool,
    budgetReached: bool,
    safeBoundary: bool,
    diagnostics: string)

  datatype Contract = Contract(
    phaseStatus: string,
    scope: string,
    currentTarget: string,
    nextStep: string,
    boundary: bool,
    reason: string,
    verified: int,
    target: Option<int>,
    remaining: Option<int>)

  /** `_critical_reason` */
  predicate Critical(reason: string, diagnostics: string) {
    Text.ContainsAny(Text.Lower(reason + " " + diagnostics), CRITICAL_MARKERS)
  }

  function Reason(i: Inputs): string {
    Text.Strip(RT.Or(i.reason, "unknown_follow_outcome"))
  }

  /** `build_follow_outcome` */
  function Build(i: Inputs): Contract {
    var reason := Reason(i);
    var (phaseStatus, scope, current, next, boundary) :=
      if i.internalFailure then ("failed_internal", "account_session", "unsafe", "end_session", i.safeBoundary)
      else if Critical(reason, i.diagnostics) then
        ("blocked_critical", "account_session", "unsafe", "end_session", i.safeBoundary)
      else if reason in LOCAL_ROTATABLE then
        ("partial_resumable", "current_ct", "locally_blocked",
         if i.targetsLeft then "rotate_next_ct" else "schedule_resume", i.safeBoundary)
      else if reason in R.EVALUATION_BARRIERS then
        ("completed_waiting_operator_evaluation", "follow_phase", "completed", "wait_operator_evaluation", true)
      else if reason in GLOBAL_COMPLETION || i.allExhausted then
        ("completed", "follow_phase", if i.allExhausted then "exhausted" else "completed", "end_follow_phase", true)
      else if i.deadlineInsufficient then
        ("partial_resumable", "account_session", "retryable", "schedule_resume", true)
      else if reason in RESUMABLE then
        ("partial_resumable", "follow_phase", "retryable", "schedule_resume", i.safeBoundary)
      else if i.budgetReached then
        ("completed", "current_ct", "completed", if i.targetsLeft then "rotate_next_ct" else "schedule_resume", true)
      else if i.currentExhausted then
        ("completed", "current_ct", "exhausted", if i.targetsLeft then "rotate_next_ct" else "end_follow_phase", true)
      else ("partial_not_resumable", "follow_phase", "unsafe", "end_session", i.safeBoundary);
    var verified := Max(0, i.verified);
    var target := if i.target.Some? then Some(Max(0, i.target.value)) else None;
    Contract(phaseStatus, scope, current, next, boundary, reason, verified, target,
             if target.Some? then Some(Max(0, target.value - verified)) else None)
  }

  /** Follow is over as a whole: the one contract that hands over after exit 0. */
  predicate Completed(c: Contract) {
    c.phaseStatus == "completed" && c.scope == "follow_phase" && c.nextStep == "end_follow_phase"
  }

  /** When an outcome says that Follow is completed as a whole. How much work was verified, and towards which goal,
      does not matter. */
  lemma CompletedExactly(i: Inputs)
    ensures Completed(Build(i))
       <==> && !i.internalFailure && !Critical(Reason(i), i.diagnostics)
            && (Reason(i) in GLOBAL_COMPLETION
                || (i.allExhausted && Reason(i) !in LOCAL_ROTATABLE && Reason(i) !in R.EVALUATION_BARRIERS))
  {
    hide Critical, Reason;
  }

  /** What an outcome says, kind by kind, of a reason that is neither critical nor an internal failure. A stop for the
      exhausted visible window is local to its target and never more; an evaluation barrier waits for the operator; a
      met goal or exhausted targets end Follow; and what is left is resumed later, or reviewed by hand. */
  lemma OutcomeExactly(i: Inputs)
    ensures var c, reason := Build(i), Reason(i);
            var onward := if i.targetsLeft then "rotate_next_ct" else "schedule_resume";
            && (i.internalFailure ==>
                  Says(c, "failed_internal", "account_session", "unsafe", "end_session", i.safeBoundary))
            && (!i.internalFailure && Critical(reason, i.diagnostics) ==>
                  Says(c, "blocked_critical", "account_session", "unsafe", "end_session", i.safeBoundary))
            && (!i.internalFailure && !Critical(reason, i.diagnostics) ==>
                  && (reason == "visible_window_exhausted_scroll_failed" ==>
                        Says(c, "partial_resumable", "current_ct", "locally_blocked", onward, i.safeBoundary))
                  && (reason == "evaluation_barrier_reached" || reason == "follow60_evaluation_barrier_reached" ==>
                        Says(c, "completed_waiting_operator_evaluation", "follow_phase", "completed",
                             "wait_operator_evaluation", true))
                  && (Ends(reason) ==>
                        Says(c, "completed", "follow_phase", if i.allExhausted then "exhausted" else "completed",
                             "end_follow_phase", true))
                  && (!Decides(reason) ==> SaysOfRest(i, c)))
  {
    if !i.internalFailure && !Critical(Reason(i), i.diagnostics) && !Decides(Reason(i)) {
      RestExactly(i);
    }
    hide Critical, Reason, SaysOfRest;
  }

  lemma RestExactly(i: Inputs)
    requires !i.internalFailure && !Critical(Reason(i), i.diagnostics) && !Decides(Reason(i))
    ensures SaysOfRest(i, Build(i))
  {
    hide Critical, Reason;
  }

  predicate Says(c: Contract, phaseStatus: string, scope: string, currentTarget: string, nextStep: string,
                 boundary: bool)
  {
    && c.phaseStatus == phaseStatus && c.scope == scope && c.currentTarget == currentTarget
    && c.nextStep == nextStep && c.boundary == boundary
  }

  /** The reasons that end Follow as a whole. */
  predicate Ends(reason: string) {
    || reason == "global_follow_cap_reached" || reason == "follow_target_reached"
    || reason == "follow_quota_reached" || reason == "all_targets_exhausted"
  }

  /** The reasons that decide by themselves. */
  predicate Decides(reason: string) {
    || Ends(reason) || reason == "visible_window_exhausted_scroll_failed"
    || reason == "evaluation_barrier_reached" || reason == "follow60_evaluation_barrier_reached"
  }

  /** What is said when no reason decides: exhausted targets first, then a deadline, the three reasons that leave a plan
      behind, the target's used-up budget and its exhaustion. */
  ghost predicate SaysOfRest(i: Inputs, c: Contract) {
    var reason := Reason(i);
    var planned := reason == "max_targets_per_run_reached" || reason == "safe_partial_ct_failure_limit_reached"
                   || reason == "target_budget_reached";
    && (i.allExhausted ==> Says(c, "completed", "follow_phase", "exhausted", "end_follow_phase", true))
    && (!i.allExhausted && i.deadlineInsufficient ==>
          Says(c, "partial_resumable", "account_session", "retryable", "schedule_resume", true))
    && (!i.allExhausted && !i.deadlineInsufficient ==>
          && (planned ==> Says(c, "partial_resumable", "follow_phase", "retryable", "schedule_resume", i.safeBoundary))
          && (!planned && i.budgetReached ==>
                Says(c, "completed", "current_ct", "completed",
                     if i.targetsLeft then "rotate_next_ct" else "schedule_resume", true))
          && (!planned && !i.budgetReached && i.currentExhausted ==>
                Says(c, "completed", "current_ct", "exhausted",
                     if i.targetsLeft then "rotate_next_ct" else "end_follow_phase", true))
          && (!planned && !i.budgetReached && !i.currentExhausted ==>
                Says(c, "partial_not_resumable", "follow_phase", "unsafe", "end_session", i.safeBoundary)))
  }

  /** The counters of an outcome: work that is not negative, and what the goal leaves of it. */
  lemma CountsExactly(i: Inputs)
    ensures var c := Build(i);
            && c.reason == Reason(i) && c.verified >= 0 && (i.verified >= 0 ==> c.verified == i.verified)
            && (i.verified < 0 ==> c.verified == 0)
            && (c.target.Some? <==> i.target.Some?) && (c.remaining.Some? <==> i.target.Some?)
            && (i.target.Some? && i.target.value >= 0 ==> c.target == i.target)
            && (i.target.Some? && i.target.value < 0 ==> c.target == Some(0))
            && (c.remaining.Some? ==>
                  if c.verified < c.target.value then c.verified + c.remaining.value == c.target.value
                  else c.remaining.value == 0)
    ensures Reason(i) == Text.Strip(if i.reason == "" then "unknown_follow_outcome" else i.reason)
  {
    hide Critical, Text.Strip;
  }

  // -----------------------------------------------------------------------
  // The critical markers

  predicate MarkerIn(text: string) {
    Text.ContainsAny(Text.Lower(text), CRITICAL_MARKERS)
  }

  /** Which words make a text critical; letter case does not matter. */
  lemma MarkerInExactly(text: string)
    ensures var t := Text.Lower(text);
            MarkerIn(text)
            <==> || Text.Contains(t, "account_mismatch") || Text.Contains(t, "active_instagram_account_mismatch")
                 || Text.Contains(t, "challenge") || Text.Contains(t, "instagram_checkpoint")
                 || Text.Contains(t, "checkpoint_required") || Text.Contains(t, "credential")
                 || Text.Contains(t, "password") || Text.Contains(t, "login_required")
                 || Text.Contains(t, "restriction") || Text.Contains(t, "restricted")
  {
    hide Text.Contains, Text.Lower;
    var markers := CRITICAL_MARKERS;
    assert |markers| == 10
      && markers[0] == "account_mismatch" && markers[1] == "active_instagram_account_mismatch"
      && markers[2] == "challenge" && markers[3] == "instagram_checkpoint" && markers[4] == "checkpoint_required"
      && markers[5] == "credential" && markers[6] == "password" && markers[7] == "login_required"
      && markers[8] == "restriction" && markers[9] == "restricted";
  }

  lemma OccurrenceHas(text: string, pattern: string, i: int, c: char)
    requires Text.OccursAt(text, pattern, i) && c in pattern
    ensures c in text
  {
    var k :| 0 <= k < |pattern| && pattern[k] == c;
    assert text[i + k] == text[i..i + |pattern|][k];
  }

  /** Each marker has a letter that the text lacks. */
  lemma LacksMarkers(text: string)
    requires 'm' !in text && 'n' !in text && 'i' !in text && 'k' !in text && ('s' !in text || 'p' !in text)
    ensures !Text.ContainsAny(text, CRITICAL_MARKERS)
  {
    var letters := ['m', 'm', 'n', 'i', 'k', 'n', if 's' !in text then 's' else 'p', 'i', 'i', 'i'];
    forall k, i | 0 <= k < |CRITICAL_MARKERS| && 0 <= i <= |text| && Text.OccursAt(text, CRITICAL_MARKERS[k], i)
      ensures false
    {
      assert letters[k] in CRITICAL_MARKERS[k];
      OccurrenceHas(text, CRITICAL_MARKERS[k], i, letters[k]);
    }
  }

  lemma LowerFixed(s: string)
    requires forall i :: 0 <= i < |s| ==> !('A' <= s[i] <= 'Z')
    ensures Text.Lower(s) == s
  {
  }

  /** No capital, and none of four letters of which every marker but "password" holds one. */
  predicate Harmless(c: char) {
    c != 'm' && c != 'n' && c != 'i' && c != 'k' && !('A' <= c <= 'Z')
  }

  ghost predicate Letters(s: string, without: char) {
    forall i :: 0 <= i < |s| ==> Harmless(s[i]) && s[i] != without
  }

  lemma CapLetters()
    ensures Letters("global_follow_cap_reached", 's')
  {
  }

  lemma TargetLetters()
    ensures Letters("follow_target_reached", 's')
  {
  }

  lemma QuotaLetters()
    ensures Letters("follow_quota_reached", 's')
  {
  }

  lemma ExhaustedLetters()
    ensures Letters("all_targets_exhausted", 'p')
  {
  }

  lemma LettersUnmarked(reason: string)
    requires Letters(reason, 's') || Letters(reason, 'p')
    ensures !MarkerIn(reason)
  {
    LowerFixed(reason);
    LacksMarkers(reason);
    hide Text.ContainsAny;
  }

  /** None of the global completion reasons names a marker. */
  lemma CompletionUnmarked(reason: string)
    requires reason in GLOBAL_COMPLETION
    ensures !MarkerIn(reason)
  {
    hide Letters;
    CapLetters();
    TargetLetters();
    QuotaLetters();
    ExhaustedLetters();
    assert Letters(reason, 's') || Letters(reason, 'p');
    hide GLOBAL_COMPLETION;
    LettersUnmarked(reason);
  }

  lemma MarkersAreWords(k: nat)
    requires k < |CRITICAL_MARKERS|
    ensures CRITICAL_MARKERS[k] != "" && Text.SpaceFree(CRITICAL_MARKERS[k])
  {
  }

  /** The blank between reason and diagnostics creates no marker. */
  lemma CriticalExactly(reason: string, diagnostics: string)
    ensures Critical(reason, diagnostics) <==> MarkerIn(reason) || MarkerIn(diagnostics)
  {
    var a, b := Text.Lower(reason), Text.Lower(diagnostics);
    assert Text.Lower(reason + " " + diagnostics) == a + " " + b;
    forall k | 0 <= k < |CRITICAL_MARKERS|
      ensures Text.Contains(a + " " + b, CRITICAL_MARKERS[k])
         <==> Text.Contains(a, CRITICAL_MARKERS[k]) || Text.Contains(b, CRITICAL_MARKERS[k])
    {
      MarkersAreWords(k);
      Text.ContainsAcrossBlank(a, b, CRITICAL_MARKERS[k]);
    }
  }

  // -----------------------------------------------------------------------
  // Merging the result of a rotation

  /** What the merge after the loop reads besides the rotation's result: whether target ids remain, the boundary of
      the last attempt's own contract, and the text of the whole summary. */
  datatype Rest = Rest(targetsLeft: bool, safeBoundary: bool, diagnostics: string)

  const GLOBALLY_COMPLETED := {"global_follow_cap_reached", "all_targets_exhausted"}

  function MergeInputs(o: R.Outcome, rest: Rest): Inputs {
    if o.reason in GLOBALLY_COMPLETED || o.allExhausted then
      Inputs(o.reason, o.total, o.goal, false, o.allExhausted, false, false, false, false, true, "")
    else
      Inputs(o.reason, o.total, o.goal, rest.targetsLeft && o.reason !in R.NO_ROTATION_REASONS, false,
             o.reason in {"deadline_insufficient", "insufficient_time"}, false, false, false, rest.safeBoundary,
             rest.diagnostics)
  }

  /** The contract that the merge after the loop puts into the summary of an end that no envelope has sealed. */
  function Merged(o: R.Outcome, rest: Rest): Contract {
    Build(MergeInputs(o, rest))
  }

  lemma NothingMarked()
    ensures !MarkerIn("")
  {
    assert forall k :: 0 <= k < |CRITICAL_MARKERS| ==> CRITICAL_MARKERS[k] != "";
    assert Text.Lower("") == "";
    assert forall m :: m != "" ==> !Text.Contains("", m);
  }

  lemma StripPlain(s: string)
    requires s != "" && !Text.IsSpace(s[0]) && !Text.IsSpace(s[|s| - 1])
    ensures Text.Strip(s) == s
  {
  }

  lemma ReasonOf(i: Inputs)
    ensures i.reason in GLOBALLY_COMPLETED ==> Reason(i) == i.reason
    ensures i.reason == "" ==> Reason(i) !in GLOBAL_COMPLETION && Text.Strip(i.reason) !in GLOBAL_COMPLETION
    ensures i.reason != "" ==> Reason(i) == Text.Strip(i.reason)
  {
    StripPlain("global_follow_cap_reached");
    StripPlain("all_targets_exhausted");
    StripPlain("unknown_follow_outcome");
    assert Text.Strip("") == "";
    hide Text.Strip, Text.IsSpace;
  }

  lemma EndsExactly(reason: string)
    ensures reason in GLOBAL_COMPLETION <==> Ends(reason)
    ensures reason in GLOBALLY_COMPLETED <==>
              reason == "global_follow_cap_reached" || reason == "all_targets_exhausted"
  {
  }

  /** For which final reasons a rotation's result says that Follow is completed as a whole: the two that the loop
      itself gives for a met goal and for exhausted targets, always; and any text of an engine that is, up to
      surrounding blanks, one of the four global completion reasons, unless a critical marker occurs in the summary. */
  lemma MergedCompletesExactly(o: R.Outcome, rest: Rest)
    requires o.allExhausted ==> o.reason == "all_targets_exhausted"
    ensures Completed(Merged(o, rest))
       <==> || o.reason == "global_follow_cap_reached" || o.reason == "all_targets_exhausted"
            || (Ends(Text.Strip(o.reason)) && !MarkerIn(rest.diagnostics))
  {
    EndsExactly(o.reason);
    EndsExactly(Text.Strip(o.reason));
    EndsExactly(Reason(MergeInputs(o, rest)));
    hide GLOBAL_COMPLETION, GLOBALLY_COMPLETED;
    hide Build, Reason, Critical, MarkerIn, Text.Strip;
    var i := MergeInputs(o, rest);
    CompletedExactly(i);
    ReasonOf(i);
    CriticalExactly(Reason(i), i.diagnostics);
    NothingMarked();
    if Reason(i) in GLOBAL_COMPLETION {
      CompletionUnmarked(Reason(i));
    }
  }

  /** What the merge is given, by field. */
  lemma MergeExactly(o: R.Outcome, rest: Rest)
    requires o.allExhausted ==> o.reason == "all_targets_exhausted"
    ensures var i := MergeInputs(o, rest);
            var over := o.reason == "global_follow_cap_reached" || o.reason == "all_targets_exhausted";
            && i.reason == o.reason && i.verified == o.total && i.target == o.goal
            && !i.internalFailure && !i.currentExhausted && !i.budgetReached
            && i.allExhausted == o.allExhausted
            && i.diagnostics == (if over then "" else rest.diagnostics)
            && i.safeBoundary == (over || rest.safeBoundary)
            && i.deadlineInsufficient == (o.reason == "deadline_insufficient" || o.reason == "insufficient_time")
            && (i.targetsLeft <==>
                  && !over && rest.targetsLeft
                  && o.reason != "visible_window_exhausted_scroll_failed"
                  && o.reason != "pre_scroll_continuation_ambiguous")
  {
  }
}
