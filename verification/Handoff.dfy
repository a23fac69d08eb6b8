/** From Follow to Unfollow: the time reserved before Follow, the gates checked after it, and the cap
    that Unfollow is started with. */
module Handoff {
  import opened Options
  import Text
  import C = ClaimValidation
  import FollowDecision

  const ACTION_P90_SECONDS := 15
  const NAVIGATION_RESERVE_SECONDS := 30
  const RECOVERY_RESERVE_SECONDS := 75

  /** The business deadline as it is passed around: no text, text that is no date, or a time in seconds. */
  datatype Deadline = Absent | Invalid | At(time: real)

  function Positive(n: int): nat {
    Max(0, n)
  }

  // -----------------------------------------------------------------------
  // Time

  /** `action_start_allowed` */
  predicate ActionStartAllowed(deadline: Deadline, boundedSeconds: real, now: real) {
    match deadline
    case At(d) => d - now >= (if boundedSeconds > 0.0 then boundedSeconds else 0.0)
    case _ => true
  }

  function Reserved(eligible: int, quota: int): nat {
    Min(Positive(eligible), Positive(quota))
  }

  /** `follow_handoff_deadline`: when Follow has to stop so that the reserved actions still fit. */
  function FollowHandoffDeadline(business: Deadline, eligible: int, quota: int, secondsPerAction: int,
                                 navigation: int, recovery: int): Option<real> {
    if !business.At? || Reserved(eligible, quota) == 0 then None
    else
      var reserve := Reserved(eligible, quota) * Max(1, secondsPerAction) + Positive(navigation) + Positive(recovery);
      Some(business.time - reserve as real)
  }

  datatype Planning = Planned(eligible: int, anyMode: bool, quota: int) | Unavailable

  /** `_resolve_follow_time_handoff`: evaluated once, before Follow. In any-mode the quota itself is
      reserved; when planning fails, one action. */
  function ResolveFollowTimeHandoff(business: Deadline, enabled: bool, planning: Planning): Option<real> {
    if business.Absent? || !enabled then None
    else
      match planning
      case Planned(eligible, anyMode, quota) =>
        FollowHandoffDeadline(business, if anyMode then quota else eligible, quota,
                              ACTION_P90_SECONDS, NAVIGATION_RESERVE_SECONDS, RECOVERY_RESERVE_SECONDS)
      case Unavailable =>
        FollowHandoffDeadline(business, 1, 1, ACTION_P90_SECONDS, NAVIGATION_RESERVE_SECONDS, RECOVERY_RESERVE_SECONDS)
  }

  function EstimatedActions(executable: int, maxActions: int): nat {
    Max(1, Min(Positive(executable), Positive(maxActions)))
  }

  /** `_follow_partial_unfollow_time_budget`: whether the estimated phase still fits at `now`. */
  predicate TimeBudgetAllows(business: Deadline, executable: int, maxActions: int, now: real) {
    match business
    case Absent => true
    case Invalid => false
    case At(d) =>
      var remaining := if d - now > 0.0 then d - now else 0.0;
      remaining >= (EstimatedActions(executable, maxActions) * ACTION_P90_SECONDS) as real
  }

  /** `actions` of fifteen seconds each fit before the deadline; without a deadline they always do, with one that
      cannot be read never. */
  predicate TimeFor(business: Deadline, actions: int, now: real) {
    match business
    case Absent => true
    case Invalid => false
    case At(d) => now + 15.0 * actions as real <= d
  }

  /** How many actions a phase is taken to need: the smaller of two numbers, and one when either is none. */
  function Needed(executable: int, maxActions: int): int {
    if executable < 1 || maxActions < 1 then 1 else if executable < maxActions then executable else maxActions
  }

  lemma TimeBudgetExactly(business: Deadline, executable: int, maxActions: int, now: real)
    ensures EstimatedActions(executable, maxActions) == Needed(executable, maxActions)
    ensures TimeBudgetAllows(business, executable, maxActions, now)
       <==> TimeFor(business, Needed(executable, maxActions), now)
  {
  }

  /** A single action of at most so many seconds may start exactly when it ends by a deadline that can be read, and is
      not late already. */
  lemma ActionStartExactly(deadline: Deadline, boundedSeconds: real, now: real)
    ensures ActionStartAllowed(deadline, boundedSeconds, now)
       <==> (deadline.At? ==> now <= deadline.time && now + boundedSeconds <= deadline.time)
  {
  }

  /** The deadline of the handoff for any estimates: every reserved action takes at least a second, and reserves below
      nothing count as nothing. */
  lemma FollowHandoffDeadlineExactly(business: Deadline, eligible: int, quota: int, secondsPerAction: int,
                                     navigation: int, recovery: int, handoff: real)
    ensures var actions := if eligible < quota then eligible else quota;
            var perAction := if secondsPerAction < 1 then 1 else secondsPerAction;
            var reserve := (if navigation < 0 then 0 else navigation) + if recovery < 0 then 0 else recovery;
            FollowHandoffDeadline(business, eligible, quota, secondsPerAction, navigation, recovery) == Some(handoff)
            <==> business.At? && actions >= 1 && handoff == business.time - (actions * perAction + reserve) as real
  {
  }

  /** The actions reserved before Follow: one when planning failed, the quota itself in any-mode, and otherwise no more
      than there are candidates. */
  function ReservedActions(planning: Planning): int {
    match planning
    case Unavailable => 1
    case Planned(eligible, anyMode, quota) => if anyMode || quota <= eligible then quota else eligible
  }

  /** When Follow has to hand over, exactly: fifteen seconds for each reserved action and 105 more before the business
      deadline, if that can be read, Unfollow is enabled and an action is reserved. */
  lemma HandoffDeadlineExactly(business: Deadline, enabled: bool, planning: Planning, handoff: real)
    ensures ResolveFollowTimeHandoff(business, enabled, planning) == Some(handoff)
       <==> && business.At? && enabled && ReservedActions(planning) >= 1
            && handoff == business.time - 15.0 * ReservedActions(planning) as real - 105.0
  {
  }

  /** The gate after Follow, exactly: it is open until the reserves have passed after the handoff
      deadline, one action's time less for every action more than was reserved, and more for every one less. */
  lemma GateExact(business: Deadline, enabled: bool, planning: Planning, executable: int, maxActions: int, now: real)
    requires ResolveFollowTimeHandoff(business, enabled, planning).Some?
    ensures var handoff := ResolveFollowTimeHandoff(business, enabled, planning).value;
            TimeBudgetAllows(business, executable, maxActions, now)
            <==> now <= handoff + 105.0
                       + 15.0 * (ReservedActions(planning) - Needed(executable, maxActions)) as real
  {
    HandoffDeadlineExactly(business, enabled, planning,
                           ResolveFollowTimeHandoff(business, enabled, planning).value);
    TimeBudgetExactly(business, executable, maxActions, now);
    hide ResolveFollowTimeHandoff, TimeBudgetAllows, Needed;
  }

  /** The reserve is enough: when Follow stops by the handoff deadline, no more than the two reserves pass
      and neither the eligible count nor the cap has grown, the gate is open. */
  lemma ReserveIsEnough(business: Deadline, eligible: int, anyMode: bool, quota: int, eligible': int, quota': int,
      stop: real, now: real)
    requires eligible' <= eligible && quota' <= quota
    requires var handoff := ResolveFollowTimeHandoff(business, true, Planned(eligible, anyMode, quota));
             handoff.Some? && stop <= handoff.value && now <= stop + 105.0
    ensures TimeBudgetAllows(business, if anyMode then quota' else eligible', quota', now)
  {
    HandoffDeadlineExactly(business, true, Planned(eligible, anyMode, quota),
                           ResolveFollowTimeHandoff(business, true, Planned(eligible, anyMode, quota)).value);
    GateExact(business, true, Planned(eligible, anyMode, quota), if anyMode then quota' else eligible', quota', now);
    hide ResolveFollowTimeHandoff, TimeBudgetAllows;
  }

  /** Actions one after another: the next starts when the one before is done, which takes at most
      fifteen seconds. `starts(k)` is when the k-th starts. */
  ghost predicate BackToBack(starts: nat -> real, count: int) {
    forall k: nat :: k + 1 < count ==> starts(k + 1) <= starts(k) + 15.0
  }

  lemma {:induction false} StartBound(starts: nat -> real, count: int, k: nat)
    requires BackToBack(starts, count) && k < count
    ensures starts(k) <= starts(0) + 15.0 * k as real
  {
    if k > 0 {
      StartBound(starts, count, k - 1);
      assert starts(k - 1 + 1) <= starts(k - 1) + 15.0;
    }
  }

  /** Through an open gate every one of the estimated actions may start, and it finishes by the deadline. */
  lemma ActionsFit(business: Deadline, executable: int, maxActions: int, starts: nat -> real, k: nat)
    requires BackToBack(starts, Needed(executable, maxActions)) && k < Needed(executable, maxActions)
    requires TimeBudgetAllows(business, executable, maxActions, starts(0))
    ensures ActionStartAllowed(business, 15.0, starts(k))
    ensures business.At? ==> starts(k) + 15.0 <= business.time
  {
    StartBound(starts, Needed(executable, maxActions), k);
    TimeBudgetExactly(business, executable, maxActions, starts(0));
    hide TimeBudgetAllows, Needed;
  }

  /** The whole promise: Follow stops in time, at most the reserves pass, and then all the reserved actions
      run one after another and finish by the business deadline. */
  lemma ReservedActionsFinish(business: Deadline, eligible: int, anyMode: bool, quota: int, stop: real,
      starts: nat -> real, k: nat)
    requires var reserved := ReservedActions(Planned(eligible, anyMode, quota));
             BackToBack(starts, reserved) && k < reserved
    requires var handoff := ResolveFollowTimeHandoff(business, true, Planned(eligible, anyMode, quota));
             handoff.Some? && stop <= handoff.value && starts(0) <= stop + 105.0
    ensures ActionStartAllowed(business, 15.0, starts(k))
    ensures business.At? && starts(k) + 15.0 <= business.time
  {
    ReserveIsEnough(business, eligible, anyMode, quota, eligible, quota, stop, starts(0));
    ActionsFit(business, if anyMode then quota else eligible, quota, starts, k);
  }

  /** When single actions may still start although the phase gate is closed: when the deadline cannot be read,
      or leaves time for one action but not for all that are estimated. The other way round never happens. */
  lemma ActionsVersusGate(business: Deadline, executable: int, maxActions: int, now: real)
    ensures TimeBudgetAllows(business, executable, maxActions, now) ==> ActionStartAllowed(business, 15.0, now)
    ensures ActionStartAllowed(business, 15.0, now) && !TimeBudgetAllows(business, executable, maxActions, now)
       <==> || business.Invalid?
            || (&& business.At? && 15.0 <= business.time - now
                && business.time - now < 15.0 * Needed(executable, maxActions) as real)
  {
    TimeBudgetExactly(business, executable, maxActions, now);
    hide TimeBudgetAllows;
  }

  // -----------------------------------------------------------------------
  // The cap

  datatype Settings = Settings(
    enabled: bool, mode: string, capMode: string, sessionLimit: int, dayLimit: int, safetyCap: Option<int>)

  datatype EnvCaps = EnvCaps(requested: int, hardMax: int, globalCap: int)
  {
    function Hard(): nat {
      Max(0, Min(hardMax, 10))
    }

    function Effective(): nat {
      Min(Max(0, Min(requested, Hard())), Positive(globalCap))
    }
  }

  const CAP_MODES := {"mini_run", "prod_normal", "incident_safety"}

  /** `s.replace("-", "_")` */
  function Underscored(s: string): (r: string)
    ensures |r| == |s| && forall i :: 0 <= i < |s| ==> r[i] == if s[i] == '-' then '_' else s[i]
  {
    if s == "" then "" else [if s[0] == '-' then '_' else s[0]] + Underscored(s[1..])
  }

  function NormalizedCapMode(raw: string): string {
    var mode := Underscored(Text.Lower(Text.Strip(raw)));
    if mode in CAP_MODES then mode else "prod_normal"
  }

  /** `resolve_unfollow_runtime_cap` */
  function DomainCap(s: Settings, envCap: int): nat {
    if NormalizedCapMode(s.capMode) == "prod_normal" then Positive(s.sessionLimit)
    else Min(Positive(s.sessionLimit), Positive(s.safetyCap.GetOr(envCap)))
  }

  /** The day's count, or the whole day limit when counting fails. */
  function DoneToday(s: Settings, counted: Option<nat>): nat {
    counted.GetOr(Positive(s.dayLimit))
  }

  /** `_resolve_follow_to_unfollow_runtime_cap` for a known account. */
  function RuntimeCap(s: Settings, env: EnvCaps, counted: Option<nat>): nat {
    var dayRemaining := Positive(Positive(s.dayLimit) - DoneToday(s, counted));
    var domain := DomainCap(s, env.Effective());
    if NormalizedCapMode(s.capMode) == "prod_normal" then Min(domain, dayRemaining)
    else Min(Min(domain, env.Effective()), dayRemaining)
  }

  /** The text spells the word, with "-" as good as "_". */
  predicate Spells(text: string, word: string) {
    |text| == |word| && forall i :: 0 <= i < |text| ==> text[i] == word[i] || (text[i] == '-' && word[i] == '_')
  }

  lemma UnderscoredExactly(s: string, word: string)
    requires forall i :: 0 <= i < |word| ==> word[i] != '-'
    ensures Underscored(s) == word <==> Spells(s, word)
  {
  }

  /** The setting asks for one of the two modes that are capped beyond normal production. */
  predicate CappedMode(raw: string) {
    var mode := Text.Lower(Text.Strip(raw));
    Spells(mode, "mini_run") || Spells(mode, "incident_safety")
  }

  lemma CapModeExactly(raw: string)
    ensures NormalizedCapMode(raw) == "prod_normal" <==> !CappedMode(raw)
  {
    var mode := Text.Lower(Text.Strip(raw));
    UnderscoredExactly(mode, "mini_run");
    UnderscoredExactly(mode, "incident_safety");
    hide Underscored, Spells, Text.Lower, Text.Strip;
  }

  /** The cap is the largest number that keeps all the limits: what the day leaves and the session limit; and in a
      capped mode also the environment's three caps, ten, and the safety cap if there is one. When today's count is
      unknown there is no action at all. */
  lemma CapExactly(s: Settings, env: EnvCaps, counted: Option<nat>, n: nat)
    requires n >= 1
    ensures n <= RuntimeCap(s, env, counted)
       <==> && counted.Some? && n + counted.value <= s.dayLimit && n <= s.sessionLimit
            && (CappedMode(s.capMode) ==>
                  && n <= env.requested && n <= env.hardMax && n <= env.globalCap && n <= 10
                  && (s.safetyCap.Some? ==> n <= s.safetyCap.value))
  {
    CapModeExactly(s.capMode);
    hide NormalizedCapMode, CappedMode;
  }

  // -----------------------------------------------------------------------
  // The gates

  const SUPPORTED_MODES := {"unfollow", "unfollow-non-followers", "unfollow-any"}

  function Mode(raw: string): string {
    Text.Lower(Text.Strip(raw))
  }

  predicate IsAny(mode: string) {
    Mode(mode) == "unfollow-any"
  }

  predicate Supported(mode: string) {
    Mode(mode) in SUPPORTED_MODES
  }

  predicate Known(id: string) {
    Text.Strip(id) != ""
  }

  /** `_follow_to_unfollow_real_enabled` for an account; `flag` is the configured default. */
  predicate RealEnabled(loaded: Option<Settings>, flag: bool) {
    if loaded.None? then flag
    else
      var s := loaded.value;
      if s.capMode == "" || s.capMode == "prod_normal" then
        s.enabled && s.mode in SUPPORTED_MODES && s.sessionLimit > 0 && s.dayLimit > 0
      else flag
  }

  type Outcome = Option<FollowDecision.Decision>

  /** An outcome that says nothing, or that Follow is completed as a whole. */
  predicate GloballyCompleted(outcome: Outcome) {
    outcome.Some? ==>
      && outcome.value.phaseStatus == "completed"
      && outcome.value.scope == "follow_phase"
      && outcome.value.safeNextStep == "end_follow_phase"
  }

  /** `_follow_exit_handoff_gate`: empty when it is open, otherwise why not. */
  function ExitGate(exit: Option<int>, outcome: Outcome, scope: FollowDecision.Scope): string {
    if exit == Some(53) || exit == Some(97) then
      if FollowDecision.Validate(outcome, exit.value, scope).Valid? then "" else "follow_termination_decision_invalid"
    else if !GloballyCompleted(outcome) then "follow_phase_not_globally_completed"
    else if exit == Some(0) then ""
    else if exit.None? then "follow_not_executed"
    else "follow_exit_code_not_allowed"
  }

  /** The safety signals of the handoff diagnostic: it is built without any. */
  const DIAGNOSTIC_SIGNALS := FollowDecision.Signals([], "", "")

  /** What is known when Unfollow may be started. Settings are read at three moments and may differ; a
      read that raises is `None`. `policy` is the resume policy, if any, and `afterWelcome` whether Follow
      may run by what Welcome left. */
  datatype Facts = Facts(
    account: string,
    username: string,
    exit: Option<int>,
    executed: bool,
    outcome: Outcome,
    scope: FollowDecision.Scope,
    policy: Option<C.AnyPolicy>,
    afterWelcome: bool,
    planned: Option<(Settings, int)>,
    enabledSettings: Option<Settings>,
    flag: bool,
    boundaryBlocks: bool,
    capSettings: Settings,
    env: EnvCaps,
    counted: Option<nat>,
    business: Deadline,
    now: real)
  {
    function Cap(): nat {
      if Text.Strip(account) == "" then env.Effective() else RuntimeCap(capSettings, env, counted)
    }

    /** An unfollow-only resume is authorized by the policy. */
    predicate ResumeOnly() {
      C.UnfollowOnly(policy, afterWelcome)
    }

    predicate PhaseAllowed() {
      policy.None? || C.PhaseEnabled(policy.value.phases.unfollow, true)
    }
  }

  /** The reason, when the condition holds. */
  function When(condition: bool, reason: string): (r: seq<string>)
    ensures forall x :: x in r <==> condition && x == reason
    ensures r == [] <==> !condition
  {
    if condition then [reason] else []
  }

  /** `_run_follow_to_unfollow_handoff_diagnostic`: every reason to skip, in order; when the settings or
      the plan cannot be read, that alone. */
  function DiagnosticSkips(f: Facts): seq<string> {
    match f.planned
    case None => ["pending_count_failed"]
    case Some((s, pending)) =>
      var exitGate := ExitGate(f.exit, f.outcome, f.scope);
      When(!Known(f.account) || !Known(f.username), "missing_account_context")
      + When(!f.executed && !f.ResumeOnly(), "follow_phase_not_executed")
      + When(exitGate != "" && !f.ResumeOnly(), exitGate)
      + When(!s.enabled, "unfollow_disabled")
      + When(!Supported(s.mode), if "unfollow-any" <= s.mode then "unfollow_mode_ui_dependent"
                                 else "unfollow_mode_not_supported_offline")
      + When(!IsAny(s.mode) && pending <= 0, "no_pending_unfollow")
  }

  predicate WouldRun(f: Facts) {
    DiagnosticSkips(f) == []
  }

  function PlannedMode(f: Facts): string {
    if f.planned.Some? then f.planned.value.0.mode else ""
  }

  function Pending(f: Facts): int {
    if f.planned.Some? then f.planned.value.1 else 0
  }

  predicate PlannedEnabled(f: Facts) {
    f.planned.Some? && f.planned.value.0.enabled
  }

  function DecisionExit(outcome: Outcome): int {
    if outcome.Some? && outcome.value.exitCode.GetOr(0) != 0 then outcome.value.exitCode.value else 53
  }

  /** `_evaluate_follow_partial_unfollow_handoff`, given the diagnostic's signals: every reason to block, in
      order. */
  function PartialBlockers(f: Facts, signals: FollowDecision.Signals): seq<string> {
    FollowDecision.GlobalBlockers(signals)
    + When(FollowDecision.Validate(f.outcome, DecisionExit(f.outcome), f.scope).Invalid?,
           "follow_termination_decision_invalid")
    + When(!Known(f.account) || !Known(f.username), "missing_account_context")
    + (if WouldRun(f) then [] else [DiagnosticSkips(f)[0]])
    + UnfollowBlockers(f)
  }

  /** The reasons among them that lie with Unfollow itself. */
  function UnfollowBlockers(f: Facts): seq<string> {
    var executable := if IsAny(PlannedMode(f)) then f.Cap() else Positive(Pending(f));
    When(!PlannedEnabled(f), "unfollow_disabled")
    + When(!Supported(PlannedMode(f)), "unfollow_skipped_mode_not_supported_for_h3_real")
    + When(!IsAny(PlannedMode(f)) && Positive(Pending(f)) == 0, "unfollow_skipped_no_safe_candidate")
    + When(f.Cap() < 1, if IsAny(PlannedMode(f)) then "unfollow_any_cap_exhausted" else "real_max_actions_invalid")
    + When(!TimeBudgetAllows(f.business, executable, f.Cap(), f.now), "insufficient_safe_business_time")
  }

  /** `_evaluate_h3_follow_exit_code_gate`: the reason to block, if any. */
  function ExitCodeBlock(f: Facts): Option<string> {
    if f.ResumeOnly() || f.exit == Some(0) then None
    else if f.exit != Some(53) && f.exit != Some(97) then Some("follow_exit_code_not_allowed_h3_real")
    else if PartialBlockers(f, DIAGNOSTIC_SIGNALS) == [] then None
    else Some(PartialBlockers(f, DIAGNOSTIC_SIGNALS)[0])
  }

  /** `_follow_to_unfollow_real_skip_reason`: the reason to skip, if any. */
  function SkipReason(f: Facts): Option<string> {
    if !Known(f.account) || !Known(f.username) then Some("missing_account_context")
    else if ExitCodeBlock(f).Some? then ExitCodeBlock(f)
    else if !PlannedEnabled(f) then Some("unfollow_disabled")
    else if !Supported(PlannedMode(f)) then Some("unfollow_skipped_mode_not_supported_for_h3_real")
    else if f.Cap() < 1 then Some(if IsAny(PlannedMode(f)) then "unfollow_any_cap_exhausted"
        else "real_max_actions_invalid")
    else if !IsAny(PlannedMode(f)) && Pending(f) <= 0 then Some("unfollow_skipped_no_safe_candidate")
    else if !WouldRun(f) then Some(DiagnosticSkips(f)[0])
    else None
  }

  /** The layers in the order the session goes through them; `Some(cap)` when Unfollow is started. */
  function Dispatch(f: Facts): Option<nat> {
    if !RealEnabled(f.enabledSettings, f.flag) || !f.PhaseAllowed() then None
    else if !WouldRun(f) then None
    else if f.boundaryBlocks then None
    else if SkipReason(f).Some? then None
    else Some(f.Cap())
  }

  // -----------------------------------------------------------------------
  // What a dispatch means

  /** How many candidates there are to unfollow, by the mode: in any-mode as many as the cap allows. */
  function Candidates(f: Facts): int {
    if f.planned.Some? && AnyMode(f.planned.value.0.mode) then f.Cap()
    else if f.planned.Some? then f.planned.value.1 else 0
  }

  predicate AnyMode(mode: string) {
    Text.Lower(Text.Strip(mode)) == "unfollow-any"
  }

  predicate KnownMode(mode: string) {
    var m := Text.Lower(Text.Strip(mode));
    m == "unfollow" || m == "unfollow-non-followers" || m == "unfollow-any"
  }

  /** The one of three licences that a dispatch needs. */
  predicate Licensed(f: Facts) {
    || f.ResumeOnly()
    || (&& f.executed && f.exit == Some(0)
        && (f.outcome.Some? ==>
              && f.outcome.value.phaseStatus == "completed" && f.outcome.value.scope == "follow_phase"
              && f.outcome.value.safeNextStep == "end_follow_phase"))
    || (&& f.executed && (f.exit == Some(53) || f.exit == Some(97))
        && FollowDecision.Validate(f.outcome, f.exit.value, f.scope).Valid?
        && TimeFor(f.business, Needed(Candidates(f), f.Cap()), f.now))
  }

  /** There is somebody to unfollow, and the account's settings ask for it. */
  predicate HasWork(f: Facts) {
    && f.planned.Some? && f.planned.value.0.enabled && KnownMode(f.planned.value.0.mode)
    && Candidates(f) >= 1 && f.Cap() >= 1
  }

  /** The settings enable Unfollow for the account; in a mode other than normal production, and when they cannot be
      read, the configured default does. */
  predicate EnabledFor(loaded: Option<Settings>, flag: bool) {
    if loaded.Some? && (loaded.value.capMode == "" || loaded.value.capMode == "prod_normal") then
      var s := loaded.value;
      && s.enabled && 1 <= s.sessionLimit && 1 <= s.dayLimit
      && (s.mode == "unfollow" || s.mode == "unfollow-non-followers" || s.mode == "unfollow-any")
    else flag
  }

  predicate Permitted(f: Facts) {
    && Text.Strip(f.account) != "" && Text.Strip(f.username) != "" && EnabledFor(f.enabledSettings, f.flag)
    && (f.policy.Some? ==> f.policy.value.phases.unfollow != Some(false)) && !f.boundaryBlocks
  }

  /** An accepted decision carries the exit code it was accepted for. */
  lemma AcceptedExit(outcome: Outcome, exit: int, scope: FollowDecision.Scope)
    requires FollowDecision.Validate(outcome, exit, scope).Valid? && exit != 0
    ensures DecisionExit(outcome) == exit
  {
    hide Text.Strip, FollowDecision.Common, FollowDecision.BoundTo;
  }

  lemma ModesExactly(mode: string)
    ensures IsAny(mode) <==> AnyMode(mode)
    ensures Supported(mode) <==> KnownMode(mode)
  {
    hide Text.Lower, Text.Strip;
  }

  lemma EnabledExactly(loaded: Option<Settings>, flag: bool)
    ensures RealEnabled(loaded, flag) <==> EnabledFor(loaded, flag)
  {
  }

  /** The diagnostic's list of reasons to skip is empty exactly when account and user are named, Follow is over or out
      of the plan, Unfollow is enabled in a known mode, and there is a candidate where one is needed. */
  lemma WouldRunMeans(f: Facts)
    ensures WouldRun(f) <==>
              && Text.Strip(f.account) != "" && Text.Strip(f.username) != ""
              && (f.ResumeOnly() || (f.executed && ExitGate(f.exit, f.outcome, f.scope) == ""))
              && f.planned.Some? && f.planned.value.0.enabled && KnownMode(f.planned.value.0.mode)
              && (AnyMode(f.planned.value.0.mode) || f.planned.value.1 > 0)
  {
    if f.planned.Some? {
      ModesExactly(f.planned.value.0.mode);
    }
    hide Text.Strip, ExitGate, Supported, IsAny, KnownMode, AnyMode;
  }

  /** Which reasons to skip the diagnostic lists. */
  lemma DiagnosticSkipsExactly(f: Facts, reason: string)
    ensures f.planned.None? ==> (reason in DiagnosticSkips(f) <==> reason == "pending_count_failed")
    ensures f.planned.Some? ==>
              var s, exitGate := f.planned.value.0, ExitGate(f.exit, f.outcome, f.scope);
              (reason in DiagnosticSkips(f)
               <==> || (reason == "missing_account_context"
                        && (Text.Strip(f.account) == "" || Text.Strip(f.username) == ""))
                    || (reason == "follow_phase_not_executed" && !f.executed && !f.ResumeOnly())
                    || (reason == exitGate && exitGate != "" && !f.ResumeOnly())
                    || (reason == "unfollow_disabled" && !s.enabled)
                    || (reason == "unfollow_mode_ui_dependent" && !KnownMode(s.mode) && |s.mode| >= 12
                        && s.mode[..12] == "unfollow-any")
                    || (reason == "unfollow_mode_not_supported_offline" && !KnownMode(s.mode)
                        && !(|s.mode| >= 12 && s.mode[..12] == "unfollow-any"))
                    || (reason == "no_pending_unfollow" && !AnyMode(s.mode) && f.planned.value.1 <= 0))
  {
    if f.planned.Some? {
      ModesExactly(f.planned.value.0.mode);
    }
    hide Text.Strip, ExitGate, Supported, IsAny, KnownMode, AnyMode;
  }

  /** The first gate, by exit code and outcome; "" is open. */
  lemma ExitGateExactly(exit: Option<int>, outcome: Outcome, scope: FollowDecision.Scope)
    ensures var reason := ExitGate(exit, outcome, scope);
            var complete := outcome.Some? ==>
                              && outcome.value.phaseStatus == "completed" && outcome.value.scope == "follow_phase"
                              && outcome.value.safeNextStep == "end_follow_phase";
            && (exit == Some(53) || exit == Some(97) ==>
                  reason == if FollowDecision.Validate(outcome, exit.value, scope).Valid? then ""
                            else "follow_termination_decision_invalid")
            && (exit != Some(53) && exit != Some(97) ==>
                  && (!complete ==> reason == "follow_phase_not_globally_completed")
                  && (complete && exit == Some(0) ==> reason == "")
                  && (complete && exit.None? ==> reason == "follow_not_executed")
                  && (complete && exit.Some? && exit.value != 0 ==> reason == "follow_exit_code_not_allowed"))
  {
    hide FollowDecision.Validate;
  }

  lemma PartialMeans(f: Facts, signals: FollowDecision.Signals)
    requires WouldRun(f) && f.Cap() >= 1
    ensures PartialBlockers(f, signals) == [] <==>
              && FollowDecision.GlobalBlockers(signals) == []
              && FollowDecision.Validate(f.outcome, DecisionExit(f.outcome), f.scope).Valid?
              && TimeFor(f.business, Needed(Candidates(f), f.Cap()), f.now)
  {
    WouldRunMeans(f);
    ModesExactly(f.planned.value.0.mode);
    TimeBudgetExactly(f.business, Candidates(f), f.Cap(), f.now);
    hide Text.Strip, ExitGate, Supported, IsAny, KnownMode, AnyMode, FollowDecision.GlobalBlockers,
      FollowDecision.Validate, DecisionExit, WouldRun, TimeBudgetAllows, TimeFor, Needed, RuntimeCap;
  }

  /** Which reasons the partial handoff lists, besides the global blockers and the diagnostic's first reason. */
  lemma PartialBlockersExactly(f: Facts, signals: FollowDecision.Signals, reason: string)
    ensures reason in PartialBlockers(f, signals)
       <==> || reason in FollowDecision.GlobalBlockers(signals)
            || (!WouldRun(f) && reason == DiagnosticSkips(f)[0])
            || (reason == "follow_termination_decision_invalid"
                && FollowDecision.Validate(f.outcome, DecisionExit(f.outcome), f.scope).Invalid?)
            || (reason == "missing_account_context" && (Text.Strip(f.account) == "" || Text.Strip(f.username) == ""))
            || reason in UnfollowBlockers(f)
  {
    hide Text.Strip, FollowDecision.GlobalBlockers, FollowDecision.Validate, DecisionExit, WouldRun, UnfollowBlockers,
      DiagnosticSkips;
  }

  lemma UnfollowBlockersExactly(f: Facts, reason: string)
    ensures reason in UnfollowBlockers(f)
       <==> || (reason == "unfollow_disabled" && (f.planned.Some? ==> !f.planned.value.0.enabled))
            || (reason == "unfollow_skipped_mode_not_supported_for_h3_real" && !KnownMode(ModeOf(f)))
            || (reason == "unfollow_skipped_no_safe_candidate" && !AnyMode(ModeOf(f)) && Candidates(f) <= 0)
            || (f.Cap() < 1
                && reason == if AnyMode(ModeOf(f)) then "unfollow_any_cap_exhausted" else "real_max_actions_invalid")
            || (reason == "insufficient_safe_business_time"
                && !TimeFor(f.business, Needed(Candidates(f), f.Cap()), f.now))
  {
    ModesExactly(ModeOf(f));
    TimeBudgetExactly(f.business, Candidates(f), f.Cap(), f.now);
    TimeBudgetExactly(f.business, Positive(Candidates(f)), f.Cap(), f.now);
    NeededPositive(Candidates(f), f.Cap());
    assert !AnyMode("") by { assert Text.Lower(Text.Strip("")) == ""; }
    hide Supported, IsAny, KnownMode, AnyMode, TimeBudgetAllows, TimeFor, RuntimeCap, Needed, Text.Strip;
  }

  lemma NeededPositive(n: int, cap: int)
    ensures Needed(Positive(n), cap) == Needed(n, cap)
  {
  }

  function ModeOf(f: Facts): string {
    if f.planned.Some? then f.planned.value.0.mode else ""
  }

  /** The last layer repeats the earlier ones; beyond them it looks at the cap and at the exit code. */
  lemma SkipMeans(f: Facts)
    requires WouldRun(f)
    ensures SkipReason(f).None? <==> f.Cap() >= 1 && ExitCodeBlock(f).None?
  {
    WouldRunMeans(f);
    ModesExactly(f.planned.value.0.mode);
    hide Text.Strip, ExitGate, Supported, IsAny, KnownMode, AnyMode, WouldRun, ExitCodeBlock, RuntimeCap;
  }

  /** The reason that the last layer gives, by what is missing first. */
  lemma SkipReasonExactly(f: Facts)
    ensures var named := Text.Strip(f.account) != "" && Text.Strip(f.username) != "";
            var enabled := f.planned.Some? && f.planned.value.0.enabled;
            var open := named && ExitCodeBlock(f).None?;
            && (!named ==> SkipReason(f) == Some("missing_account_context"))
            && (named && !f.ResumeOnly() && f.exit !in {Some(0), Some(53), Some(97)} ==>
                  SkipReason(f) == Some("follow_exit_code_not_allowed_h3_real"))
            && (named && ExitCodeBlock(f).Some? ==> SkipReason(f) == ExitCodeBlock(f))
            && (open && !enabled ==> SkipReason(f) == Some("unfollow_disabled"))
            && (open && enabled && !KnownMode(ModeOf(f)) ==>
                  SkipReason(f) == Some("unfollow_skipped_mode_not_supported_for_h3_real"))
            && (open && enabled && KnownMode(ModeOf(f)) ==>
                  && (f.Cap() < 1 ==>
                        SkipReason(f) == Some(if AnyMode(ModeOf(f)) then "unfollow_any_cap_exhausted"
                                              else "real_max_actions_invalid"))
                  && (f.Cap() >= 1 && Candidates(f) < 1 ==>
                        SkipReason(f) == Some("unfollow_skipped_no_safe_candidate")))
            && (open && HasWork(f) ==> SkipReason(f) == if WouldRun(f) then None else Some(DiagnosticSkips(f)[0]))
  {
    ModesExactly(ModeOf(f));
    hide Text.Strip, KnownMode, AnyMode, IsAny, Supported, RuntimeCap, Facts.ResumeOnly, PartialBlockers, WouldRun,
      DiagnosticSkips;
  }

  lemma NoSignalsNoBlockers()
    ensures FollowDecision.GlobalBlockers(DIAGNOSTIC_SIGNALS) == []
  {
    assert Text.Strip("") == "" && Text.Lower("") == "";
  }

  /** After exit 53 or 97 the partial handoff comes down to an accepted decision and time. */
  lemma PartialOpens(f: Facts)
    requires WouldRun(f) && f.Cap() >= 1 && !f.ResumeOnly() && (f.exit == Some(53) || f.exit == Some(97))
    ensures PartialBlockers(f, DIAGNOSTIC_SIGNALS) == []
       <==> && FollowDecision.Validate(f.outcome, f.exit.value, f.scope).Valid?
            && TimeFor(f.business, Needed(Candidates(f), f.Cap()), f.now)
  {
    WouldRunMeans(f);
    PartialMeans(f, DIAGNOSTIC_SIGNALS);
    NoSignalsNoBlockers();
    ExitGateExactly(f.exit, f.outcome, f.scope);
    AcceptedExit(f.outcome, f.exit.value, f.scope);
    hide *;
  }

  lemma ExitCodeMeans(f: Facts)
    requires WouldRun(f) && f.Cap() >= 1
    ensures ExitCodeBlock(f).None? <==> Licensed(f)
  {
    WouldRunMeans(f);
    ExitGateExactly(f.exit, f.outcome, f.scope);
    if !f.ResumeOnly() && (f.exit == Some(53) || f.exit == Some(97)) {
      PartialOpens(f);
    }
    hide Text.Strip, KnownMode, AnyMode, WouldRun, PartialBlockers, TimeFor, Needed, Candidates, ExitGate, Facts.Cap,
      Facts.ResumeOnly, FollowDecision.Validate;
  }

  /** Unfollow is dispatched exactly when it is permitted, there is work, and one of the licences holds; and
      then with the cap, the largest number of actions that the limits allow. The gate on global blockers never
      closes. */
  lemma DispatchExactly(f: Facts)
    ensures Dispatch(f).Some? <==> Permitted(f) && HasWork(f) && Licensed(f)
    ensures FollowDecision.GlobalBlockers(DIAGNOSTIC_SIGNALS) == []
    ensures Dispatch(f).Some? ==> forall n: nat :: n >= 1 ==> (n <= Dispatch(f).value <==> WithinLimits(f, n))
  {
    WouldRunMeans(f);
    NoSignalsNoBlockers();
    EnabledExactly(f.enabledSettings, f.flag);
    if WouldRun(f) {
      ModesExactly(f.planned.value.0.mode);
      SkipMeans(f);
      if f.Cap() >= 1 {
        ExitCodeMeans(f);
      }
    }
    if Licensed(f) {
      LicenceOpensGate(f);
    }
    forall n: nat | n >= 1 && Text.Strip(f.account) != "" ensures n <= f.Cap() <==> WithinLimits(f, n) {
      CapExactly(f.capSettings, f.env, f.counted, n);
    }
    hide IsAny, AnyMode, KnownMode, Supported, RealEnabled, EnabledFor, WouldRun, SkipReason, ExitCodeBlock, RuntimeCap,
      Licensed, ExitGate, WithinLimits, FollowDecision.GlobalBlockers, Text.Strip;
  }

  /** So many actions keep every limit. */
  predicate WithinLimits(f: Facts, n: int) {
    && f.counted.Some? && n + f.counted.value <= f.capSettings.dayLimit && n <= f.capSettings.sessionLimit
    && (CappedMode(f.capSettings.capMode) ==>
          && n <= f.env.requested && n <= f.env.hardMax && n <= f.env.globalCap && n <= 10
          && (f.capSettings.safetyCap.Some? ==> n <= f.capSettings.safetyCap.value))
  }

  lemma LicenceOpensGate(f: Facts)
    requires Licensed(f)
    ensures f.ResumeOnly() || (f.executed && ExitGate(f.exit, f.outcome, f.scope) == "")
  {
    ExitGateExactly(f.exit, f.outcome, f.scope);
    hide AnyMode, FollowDecision.Validate, FollowDecision.GlobalBlockers, TimeFor, Needed, Candidates, ExitGate;
  }
}
