/**
 The Follow termination decision: an envelope that the runner freezes when it stops Follow
 with a durable partial result, and the fail-closed validator that every consumer calls.
 */
module FollowDecision {
  import opened Options
  import Text

  const TIME_HANDOFF := "follow_to_unfollow_time_handoff"
  const SCHEMA := "FOLLOW_TERMINATION_DECISION_V1"
  const VERSION := "follow_termination_decision_v1"

  /** The run that a consumer is working for; the exit-97 envelope is bound to one. */
  datatype Scope = Scope(
    accountId: string,
    requestId: string,
    runId: string,
    businessSessionId: string,
    attemptId: string,
    generation: string)

  /** A non-empty decision dictionary. An absent boolean reads as `false` where the contract
      wants `True`, and as `None` where it wants `False`. */
  datatype Decision = Decision(
    schema: string,
    schemaVersion: string,
    exitCode: Option<int>,
    phaseStatus: string,
    scope: string,
    firstCausalReason: string,
    stableReason: string,
    safeBoundary: bool,
    safeNextStep: string,
    followRemainingPreserved: bool,
    noNewFollowAfterDeadline: bool,
    retapAllowed: Option<bool>,
    rotationAllowed: Option<bool>,
    physicalFollowPreserved: bool,
    receiptPresent: bool,
    candidateLocalFailure: bool,
    recoveryRequired: bool,
    noNewFollowUntilRecovered: bool,
    binding: Option<Scope>,
    completedCount: Option<int>,
    attributed: bool)

  datatype Verdict = Valid(reason: string) | Invalid(detail: string)

  predicate Common(d: Decision) {
    && d.phaseStatus == "partial_resumable"
    && d.scope == "follow_phase"
    && d.safeBoundary
    && d.safeNextStep == "handoff_to_unfollow"
    && d.retapAllowed == Some(false)
    && d.rotationAllowed == Some(false)
  }

  function Bound(actual: string, expected: string): bool {
    Text.Strip(expected) != "" && Text.Strip(actual) == Text.Strip(expected)
  }

  predicate BoundTo(binding: Scope, expected: Scope) {
    && Bound(binding.accountId, expected.accountId)
    && Bound(binding.requestId, expected.requestId)
    && Bound(binding.runId, expected.runId)
    && Bound(binding.businessSessionId, expected.businessSessionId)
    && Bound(binding.attemptId, expected.attemptId)
    && Bound(binding.generation, expected.generation)
  }

  /** `validate_follow_termination_decision`. Only the exit-97 contract looks at `expected`. */
  function Validate(decision: Option<Decision>, expectedExit: int, expected: Scope): Verdict {
    if decision.None? then Invalid("decision_missing")
    else
      var d := decision.value;
      if d.schema != SCHEMA then Invalid("schema_unknown")
      else if d.schemaVersion != VERSION then Invalid("schema_version_unknown")
      else if d.exitCode.None? then Invalid("exit_code_invalid")
      else if d.exitCode.value != expectedExit then Invalid("exit_code_mismatch")
      else if d.exitCode.value == 97 then
        if !(Common(d) && d.firstCausalReason == TIME_HANDOFF && d.stableReason == TIME_HANDOFF
             && d.followRemainingPreserved && d.noNewFollowAfterDeadline) then
          Invalid("contract_contradiction")
        else if d.binding.None? then Invalid("scope_binding_invalid")
        else if !BoundTo(d.binding.value, expected) then Invalid("scope_binding_mismatch")
        else Valid("follow_time_handoff_partial_safe_for_unfollow")
      else if !(Common(d) && d.physicalFollowPreserved && d.receiptPresent
                && d.candidateLocalFailure && d.recoveryRequired && d.noNewFollowUntilRecovered) then
        Invalid("contract_contradiction")
      else if d.completedCount.None? || d.completedCount.value < 1 then
        Invalid("durable_follow_count_invalid")
      else if !d.attributed then Invalid("target_attribution_invalid")
      else if Text.Strip(d.firstCausalReason) == "" then Invalid("first_causal_reason_missing")
      else Valid("follow_candidate_local_post_follow_partial_safe_for_unfollow")
  }

  /** `build_follow_time_handoff_termination_decision`, the envelope the orchestrator may add. */
  function TimeHandoffDecision(completed: int, scope: Scope, attributed: bool): Decision {
    Decision(SCHEMA, VERSION, Some(97), "partial_resumable", "follow_phase",
             TIME_HANDOFF, TIME_HANDOFF, true, "handoff_to_unfollow", true, true,
             Some(false), Some(false), false, false, false, false, false,
             Some(Scope(Text.Strip(scope.accountId), Text.Strip(scope.requestId),
                        Text.Strip(scope.runId), Text.Strip(scope.businessSessionId),
                        Text.Strip(scope.attemptId), Text.Strip(scope.generation))),
             Some(Max(0, completed)), attributed)
  }

  /** What the runner knows of a durable partial Follow when it stops. `attributed`: some field of the target
      attribution is not blank. */
  datatype DurablePartial = DurablePartial(
    physicalFollowPreserved: bool,
    receiptPresent: bool,
    candidateLocalFailure: bool,
    recoveryRequired: bool,
    noNewFollowUntilRecovered: bool,
    safeBoundary: bool,
    safeNextStep: string,
    attributed: bool)

  /** `build_follow_termination_decision`, the runner's own envelope. */
  function DurablePartialDecision(exitCode: int, firstCausalReason: string, completed: int, d: DurablePartial)
    : Decision
  {
    var reason := Text.Strip(if firstCausalReason != "" then firstCausalReason else "post_follow_recovery_required");
    Decision(SCHEMA, VERSION, Some(exitCode), "partial_resumable", "follow_phase", reason, reason, d.safeBoundary,
             Text.Strip(d.safeNextStep), false, false, Some(false), Some(false), d.physicalFollowPreserved,
             d.receiptPresent, d.candidateLocalFailure, d.recoveryRequired, d.noNewFollowUntilRecovered, None,
             Some(Max(0, completed)), d.attributed)
  }

  /** Structured safety signals of a summary or of a handoff diagnostic. */
  datatype Signals = Signals(blockers: seq<string>, safetyReason: string, platformState: string)

  const UNSAFE_PLATFORM_STATES := {"challenge", "restriction", "restricted", "blocked"}

  /** `_canonical_global_unfollow_handoff_blockers`, without the removal of duplicates. */
  function GlobalBlockers(s: Signals): seq<string> {
    NonBlank(s.blockers)
    + NonBlank([s.safetyReason])
    + (var state := Text.Lower(Text.Strip(s.platformState));
       if state in UNSAFE_PLATFORM_STATES then ["unsafe_follow_signal_" + state] else [])
  }

  function NonBlank(reasons: seq<string>): (r: seq<string>)
    ensures forall x :: x in r ==> x != ""
    ensures r == [] <==> forall k :: 0 <= k < |reasons| ==> Text.Strip(reasons[k]) == ""
  {
    if reasons == [] then []
    else
      var rest := NonBlank(reasons[1..]);
      var head := Text.Strip(reasons[0]);
      assert forall k :: 0 <= k < |reasons| ==> reasons[k] == if k == 0 then reasons[0] else reasons[1..][k - 1];
      if head == "" then rest else [head] + rest
  }

  // -----------------------------------------------------------------------

  ghost predicate NonBlankScope(s: Scope) {
    && Text.Strip(s.accountId) != "" && Text.Strip(s.requestId) != "" && Text.Strip(s.runId) != ""
    && Text.Strip(s.businessSessionId) != "" && Text.Strip(s.attemptId) != ""
    && Text.Strip(s.generation) != ""
  }

  /** Two texts agree up to surrounding blanks, and say something. */
  predicate SameText(a: string, b: string) {
    Text.Strip(a) == Text.Strip(b) != ""
  }

  /** The binding names this very session. */
  predicate Names(binding: Scope, s: Scope) {
    && SameText(binding.accountId, s.accountId) && SameText(binding.requestId, s.requestId)
    && SameText(binding.runId, s.runId) && SameText(binding.businessSessionId, s.businessSessionId)
    && SameText(binding.attemptId, s.attemptId) && SameText(binding.generation, s.generation)
  }

  /** What every accepted decision says: a safe, resumable partial Follow that hands over to Unfollow, with no retap and
      no rotation, in the known schema and for the exit it is judged for. */
  predicate HandsOverSafely(d: Decision, exit: int) {
    && d.schema == "FOLLOW_TERMINATION_DECISION_V1" && d.schemaVersion == "follow_termination_decision_v1"
    && d.exitCode == Some(exit)
    && d.phaseStatus == "partial_resumable" && d.scope == "follow_phase"
    && d.safeBoundary && d.safeNextStep == "handoff_to_unfollow"
    && d.retapAllowed == Some(false) && d.rotationAllowed == Some(false)
  }

  /** A decision for exit 97 besides: it was made for the time handoff, keeps what is left of Follow, lets nothing new
      start after the deadline, and is bound to this session. */
  predicate HandsOverInTime(d: Decision, expected: Scope) {
    && d.firstCausalReason == "follow_to_unfollow_time_handoff"
    && d.stableReason == "follow_to_unfollow_time_handoff"
    && d.followRemainingPreserved && d.noNewFollowAfterDeadline
    && d.binding.Some? && Names(d.binding.value, expected)
  }

  /** A decision for any other exit besides: the facts of a durable partial Follow, at least one follow counted and
      attributed, and a reason. */
  predicate HandsOverDurably(d: Decision) {
    && d.physicalFollowPreserved && d.receiptPresent && d.candidateLocalFailure
    && d.recoveryRequired && d.noNewFollowUntilRecovered
    && d.completedCount.Some? && d.completedCount.value >= 1 && d.attributed
    && Text.Strip(d.firstCausalReason) != ""
  }

  /** Which decisions are accepted, field by field. */
  lemma ValidExactly(d: Decision, exit: int, expected: Scope)
    ensures Validate(Some(d), exit, expected).Valid?
       <==> HandsOverSafely(d, exit) && if exit == 97 then HandsOverInTime(d, expected) else HandsOverDurably(d)
    ensures Validate(None, exit, expected).Invalid?
  {
    if exit == 97 {
      InTimeExactly(d, expected);
    } else {
      DurablyExactly(d, exit, expected);
    }
    NothingToValidate(exit, expected);
    hide *;
  }

  lemma NothingToValidate(exit: int, expected: Scope)
    ensures Validate(None, exit, expected).Invalid?
  {
  }

  lemma InTimeExactly(d: Decision, expected: Scope)
    ensures Validate(Some(d), 97, expected).Valid? <==> HandsOverSafely(d, 97) && HandsOverInTime(d, expected)
  {
    if d.binding.Some? {
      BoundExactly(d.binding.value, expected);
    }
    hide Text.Strip, BoundTo, Names;
  }

  lemma DurablyExactly(d: Decision, exit: int, expected: Scope)
    requires exit != 97
    ensures Validate(Some(d), exit, expected).Valid? <==> HandsOverSafely(d, exit) && HandsOverDurably(d)
  {
    hide Text.Strip, BoundTo;
  }

  lemma BoundExactly(binding: Scope, s: Scope)
    ensures BoundTo(binding, s) <==> Names(binding, s)
  {
    hide Text.Strip;
  }

  /** What counts as a global blocker: a reason listed that is not blank, the safety reason if it is not blank, and an
      unsafe state of the platform. */
  lemma GlobalBlockersExactly(s: Signals, x: string)
    ensures var state := Text.Lower(Text.Strip(s.platformState));
            var isUnsafe := state == "challenge" || state == "restriction" || state == "restricted"
                            || state == "blocked";
            x in GlobalBlockers(s)
            <==> || (x != "" && exists k :: 0 <= k < |s.blockers| && Text.Strip(s.blockers[k]) == x)
                 || (x != "" && x == Text.Strip(s.safetyReason))
                 || (isUnsafe && x == "unsafe_follow_signal_" + state)
  {
    NonBlankExactly(s.blockers, x);
    NonBlankExactly([s.safetyReason], x);
    assert [s.safetyReason][0] == s.safetyReason;
    hide Text.Strip, Text.Lower, NonBlank;
  }

  lemma {:induction false} NonBlankExactly(reasons: seq<string>, x: string)
    ensures x in NonBlank(reasons) <==> x != "" && exists k :: 0 <= k < |reasons| && Text.Strip(reasons[k]) == x
  {
    hide Text.Strip;
    if reasons != [] {
      var rest := reasons[1..];
      NonBlankExactly(rest, x);
      assert forall k :: 0 <= k < |rest| ==> rest[k] == reasons[k + 1];
      if k :| 0 < k < |reasons| && Text.Strip(reasons[k]) == x {
        assert rest[k - 1] == reasons[k];
      }
    }
  }

  lemma {:induction false} StripEndIdempotent(s: string)
    ensures Text.StripEnd(Text.StripEnd(s)) == Text.StripEnd(s)
    ensures Text.StripEnd(s) != [] ==> Text.StripEnd(s)[0] == s[0]
  {
    if s == [] || !Text.IsSpace(s[|s| - 1]) {
    } else {
      StripEndIdempotent(s[..|s| - 1]);
    }
  }

  lemma {:induction false} StripStartTrims(s: string)
    ensures var r := Text.StripStart(s); r != [] ==> !Text.IsSpace(r[0])
  {
    if s == [] || !Text.IsSpace(s[0]) {
    } else {
      StripStartTrims(s[1..]);
    }
  }

  lemma StripIdempotent(s: string)
    ensures Text.Strip(Text.Strip(s)) == Text.Strip(s)
  {
    StripStartTrims(s);
    StripEndIdempotent(Text.StripStart(s));
  }

  /** The envelope that the orchestrator builds is accepted for the run it was built for exactly
      when every part of that run's identity is known. */
  lemma TimeHandoffDecisionAccepted(completed: int, scope: Scope, attributed: bool)
    ensures Validate(Some(TimeHandoffDecision(completed, scope, attributed)), 97, scope).Valid?
            <==> NonBlankScope(scope)
    ensures var d := TimeHandoffDecision(completed, scope, attributed);
            d.completedCount == Some(if completed >= 0 then completed else 0) && d.attributed == attributed
  {
    StripIdempotent(scope.accountId);
    StripIdempotent(scope.requestId);
    StripIdempotent(scope.runId);
    StripIdempotent(scope.businessSessionId);
    StripIdempotent(scope.attemptId);
    StripIdempotent(scope.generation);
  }

  /** The envelope that the runner builds is accepted exactly for the exit that it was built for, other than 97, when
      all its facts hold, at least one follow is counted and attributed, and the reason is not made of blanks alone;
      and then for every session. A missing reason is replaced, a blank one is not. */
  lemma DurablePartialAccepted(exitCode: int, reason: string, completed: int, d: DurablePartial, expectedExit: int,
                               expected: Scope)
    ensures Validate(Some(DurablePartialDecision(exitCode, reason, completed, d)), expectedExit, expected).Valid?
       <==> && exitCode == expectedExit != 97
            && d.physicalFollowPreserved && d.receiptPresent && d.candidateLocalFailure && d.recoveryRequired
            && d.noNewFollowUntilRecovered && d.safeBoundary && Text.Strip(d.safeNextStep) == "handoff_to_unfollow"
            && completed >= 1 && d.attributed && (reason == "" || Text.Strip(reason) != "")
  {
    StripIdempotent(reason);
    assert Text.Strip("post_follow_recovery_required") == "post_follow_recovery_required";
    hide Text.Strip, BoundTo;
  }

  /** An accepted exit-97 envelope names the very run it is accepted for: it is accepted for a
      second run only if the two runs have the same identity, up to surrounding blanks. */
  lemma TimeHandoffBindsRun(d: Decision, mine: Scope, other: Scope)
    requires Validate(Some(d), 97, mine).Valid?
    ensures Validate(Some(d), 97, other).Valid? <==> BoundTo(mine, other)
  {
    hide Text.Strip;
    assert BoundTo(d.binding.value, mine);
  }

  /** An accepted exit-53 envelope is accepted for every run: its contract carries no run identity. */
  lemma DurablePartialIgnoresRun(d: Decision, expectedExit: int, mine: Scope, other: Scope)
    requires expectedExit != 97
    ensures Validate(Some(d), expectedExit, mine) == Validate(Some(d), expectedExit, other)
  {
  }

  /** For which other sessions an accepted envelope is accepted too: an exit-97 envelope for those of the same
      identity, up to surrounding blanks; any other, that of exit 53 in particular, for every session. */
  lemma AcceptedElsewhere(d: Decision, expectedExit: int, mine: Scope, other: Scope)
    requires Validate(Some(d), expectedExit, mine).Valid?
    ensures Validate(Some(d), expectedExit, other).Valid? <==> expectedExit != 97 || BoundTo(mine, other)
  {
    hide Validate, BoundTo;
    if expectedExit == 97 {
      TimeHandoffBindsRun(d, mine, other);
    } else {
      DurablePartialIgnoresRun(d, expectedExit, mine, other);
    }
  }
}
