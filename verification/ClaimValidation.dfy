/** Validating an automatic restart request when it is claimed, and reading the resulting policy. */
module ClaimValidation {
  import opened Options
  import Text

  /** A request field that should hold a number. `None` and "" are `Missing`. */
  datatype Raw = Missing | Flag(b: bool) | Number(n: int) | Unreadable

  // -----------------------------------------------------------------------
  // Attempt identity

  /** The fields of one layer of the request: its top level or its embedded plan. */
  datatype Layer = Layer(attemptId: Raw, currentAttemptId: Raw, retryIndex: Raw)

  datatype AttemptContext = AttemptContext(attemptId: int, retryIndex: int)

  predicate NamesAttempt(l: Layer) {
    !l.attemptId.Missing? || !l.currentAttemptId.Missing?
  }

  /** The layer that decides: the top level as soon as it names an attempt at all. */
  function Deciding(top: Layer, embedded: Layer): Layer {
    if NamesAttempt(top) then top else embedded
  }

  ghost predicate Says(raw: Raw, n: int) {
    raw.Missing? || raw == Number(n)
  }

  /** The decided layer names exactly this attempt, at least 1, and this retry index, one below. */
  ghost predicate Identifies(l: Layer, c: AttemptContext) {
    && NamesAttempt(l) && Says(l.attemptId, c.attemptId) && Says(l.currentAttemptId, c.attemptId)
    && Says(l.retryIndex, c.retryIndex)
    && c.attemptId >= 1 && c.attemptId == c.retryIndex + 1
  }

  /** The numbers among `raws`, unless one that is present is unusable or below `least`. */
  method CollectNumbers(raws: seq<Raw>, least: int) returns (numbers: Option<seq<int>>)
    ensures numbers.None? <==> exists k :: 0 <= k < |raws| && Unusable(raws[k], least)
    ensures numbers.Some? ==>
              && (forall n :: n in numbers.value <==> exists k :: 0 <= k < |raws| && raws[k] == Number(n))
              && (numbers.value == [] <==> forall k :: 0 <= k < |raws| ==> raws[k].Missing?)
  {
    var out: seq<int> := [];
    for i := 0 to |raws|
      invariant forall k :: 0 <= k < i ==> !Unusable(raws[k], least)
      invariant forall n :: n in out <==> exists k :: 0 <= k < i && raws[k] == Number(n)
      invariant out == [] <==> forall k :: 0 <= k < i ==> raws[k].Missing?
    {
      match raws[i]
      case Missing =>
      case Number(n) =>
        if n < least {
          return None;
        }
        out := out + [n];
      case Flag(_) => return None;
      case Unreadable => return None;
    }
    return Some(out);
  }

  predicate Unusable(raw: Raw, least: int) {
    raw.Flag? || raw.Unreadable? || (raw.Number? && raw.n < least)
  }

  /** `_canonical_request_attempt_context`: a context is found exactly when the deciding layer
      identifies one, and then it is that one. */
  method CanonicalRequestAttemptContext(top: Layer, embedded: Layer) returns (r: Option<AttemptContext>)
    ensures r.Some? ==> Identifies(Deciding(top, embedded), r.value)
    ensures r.None? ==> forall c :: !Identifies(Deciding(top, embedded), c)
  {
    var layer := Deciding(top, embedded);
    var raws := [layer.attemptId, layer.currentAttemptId];
    assert raws[0] == layer.attemptId && raws[1] == layer.currentAttemptId;
    var attempts := CollectNumbers(raws, 1);
    if attempts.None? || attempts.value == [] {
      return None;
    }
    var attempt := attempts.value[0];
    assert attempt in attempts.value;
    if exists n :: n in attempts.value && n != attempt {
      return None;
    }
    assert forall k :: 0 <= k < 2 && raws[k].Number? ==> raws[k].n in attempts.value;
    var retries := CollectNumbers([layer.retryIndex], 0);
    assert [layer.retryIndex][0] == layer.retryIndex;
    if retries.None? {
      return None;
    }
    var retry := if retries.value != [] then retries.value[0] else attempt - 1;
    assert retries.value != [] ==> retry in retries.value;
    if attempt != retry + 1 {
      return None;
    }
    return Some(AttemptContext(attempt, retry));
  }

  // -----------------------------------------------------------------------
  // Quotas and phases

  /** `None` is absent or "unknown". */
  datatype PhaseRecord = PhaseRecord(welcome: Option<bool>, follow: Option<bool>, unfollow: Option<bool>)

  datatype QuotaRecord = QuotaRecord(
    welcome: Option<int>, follow: Option<int>, unfollow: Option<int>, total: Option<int>)

  function Planned(p: Option<bool>, q: Option<int>): int {
    if p == Some(true) then q.GetOr(0) else 0
  }

  predicate PositiveIfPlanned(p: Option<bool>, q: Option<int>) {
    p == Some(true) ==> q.Some? && q.value > 0
  }

  predicate AnyPlanned(p: PhaseRecord) {
    p.welcome == Some(true) || p.follow == Some(true) || p.unfollow == Some(true)
  }

  /** `_validate_quota_consistency`; "" is consistent. */
  method ValidateQuotaConsistency(p: PhaseRecord, q: QuotaRecord) returns (reason: string)
    ensures reason == "" <==> QuotaConsistent(p, q)
  {
    if !AnyPlanned(p) {
      return "resume_plan_invalid";
    }
    var phases := [(p.welcome, q.welcome), (p.follow, q.follow), (p.unfollow, q.unfollow)];
    var sum := 0;
    for i := 0 to 3
      invariant i >= 1 ==> PositiveIfPlanned(p.welcome, q.welcome)
      invariant i >= 2 ==> PositiveIfPlanned(p.follow, q.follow)
      invariant i >= 3 ==> PositiveIfPlanned(p.unfollow, q.unfollow)
      invariant sum == (if i >= 1 then Planned(p.welcome, q.welcome) else 0)
                       + (if i >= 2 then Planned(p.follow, q.follow) else 0)
                       + (if i >= 3 then Planned(p.unfollow, q.unfollow) else 0)
    {
      var (planned, remaining) := phases[i];
      if planned == Some(true) {
        if remaining.None? {
          return "unknown_required_field";
        }
        if remaining.value <= 0 {
          return "quota_inconsistency_blocked";
        }
        sum := sum + remaining.value;
      }
    }
    if q.total.Some? && (q.total.value < 0 || sum > q.total.value) {
      return "quota_inconsistency_blocked";
    }
    return "";
  }

  /** Some phase is planned, every planned phase has positive known quota, and together they fit in
      the total when it is known. */
  predicate QuotaConsistent(p: PhaseRecord, q: QuotaRecord) {
    && AnyPlanned(p)
    && PositiveIfPlanned(p.welcome, q.welcome)
    && PositiveIfPlanned(p.follow, q.follow)
    && PositiveIfPlanned(p.unfollow, q.unfollow)
    && (q.total.Some? ==>
          Planned(p.welcome, q.welcome) + Planned(p.follow, q.follow) + Planned(p.unfollow,
              q.unfollow) <= q.total.value)
  }

  // -----------------------------------------------------------------------
  // The claim

  /** A resume plan as stored with a run or embedded in a request; `None` is an absent key. */
  datatype StoredPlan = StoredPlan(
    restartAllowed: Option<bool>, phases: Option<PhaseRecord>, quota: Option<QuotaRecord>)

  /** A restart request. What the code looks up first at the top level and then in the embedded plan is the text
      found. */
  datatype Request = Request(
    failureCategory: string,
    rootFailureCode: string,
    failureSignature: string,
    businessSessionId: string,
    previousRunId: string,
    cleanupCompleted: bool,
    lockReleased: bool,
    priorRunId: string,
    schema: string,
    version: int,
    top: Layer,
    embeddedIds: Layer,
    embedded: StoredPlan)

  /** A failure that a restart of the same release would only repeat. */
  predicate Systemic(r: Request) {
    || Text.Strip(r.failureCategory) == "systemic_persistence_failure"
    || Text.Strip(r.rootFailureCode) == "follow_persistence_runtime_unavailable"
  }

  /** The request retries a Python failure that counts as recoverable. */
  predicate RecoverableRetry(r: Request) {
    r.failureCategory == "recoverable_python_runtime_failure"
  }

  /** The prior run, as loaded: its stored plan, the quotas that its summary itself gives, the safety markers found
      in both, and whether the account is identified. */
  datatype PriorRun = PriorRun(plan: StoredPlan, restartAllowed: Option<bool>, summaryQuota: QuotaRecord,
      unsafeMarkers: seq<string>, identified: bool)

  datatype Policy = Policy(phases: PhaseRecord, quota: QuotaRecord, attemptId: int, retryIndex: int)

  datatype Claim = Rejected(reason: string) | Granted(policy: Policy)

  const SCHEMA_V1 := "AUTO_RESTART_RESUME_PLAN_V1"
  const SCHEMA_V2 := "AUTO_RESTART_RESUME_PLAN_V2"

  predicate SchemaAccepted(r: Request) {
    || (Text.Strip(r.schema) == SCHEMA_V1 && r.version == 1)
    || (Text.Strip(r.schema) == SCHEMA_V2 && r.version == 2)
  }

  /** `{**canonical, **embedded}` */
  function Merged(canonical: StoredPlan, embedded: StoredPlan): StoredPlan {
    StoredPlan(if embedded.restartAllowed.Some? then embedded.restartAllowed else canonical.restartAllowed,
               if embedded.phases.Some? then embedded.phases else canonical.phases,
               if embedded.quota.Some? then embedded.quota else canonical.quota)
  }

  const NO_PHASES := PhaseRecord(None, None, None)
  const NO_QUOTA := QuotaRecord(None, None, None, None)

  predicate PhasesDecided(p: PhaseRecord) {
    p.welcome.Some? && p.follow.Some? && p.unfollow.Some?
  }

  /** Every planned phase has its quota in the plan or in the summary. */
  predicate QuotaKnown(p: PhaseRecord, q: QuotaRecord, summary: QuotaRecord) {
    && (p.welcome == Some(true) ==> q.welcome.Some? || summary.welcome.Some?)
    && (p.follow == Some(true) ==> q.follow.Some? || summary.follow.Some?)
    && (p.unfollow == Some(true) ==> q.unfollow.Some? || summary.unfollow.Some?)
  }

  function RestartAllowed(plan: StoredPlan, prior: PriorRun): Option<bool> {
    if plan.restartAllowed.Some? then plan.restartAllowed else prior.restartAllowed
  }

  /** `build_manual_resume_command` allows the command: nothing unsafe, a restart that the plan
      allows, a known account, and no field that a planned phase needs unknown. */
  predicate ManualResumeAllowed(plan: StoredPlan, prior: PriorRun) {
    var p := plan.phases.GetOr(NO_PHASES);
    && prior.unsafeMarkers == []
    && RestartAllowed(plan, prior) == Some(true)
    && prior.identified
    && PhasesDecided(p) && QuotaKnown(p, plan.quota.GetOr(NO_QUOTA), prior.summaryQuota)
  }

  /** `_quota_remaining`, for one phase: the plan's quota, and for want of it the summary's. */
  function QuotaRemaining(fromPlan: Option<int>, fromSummary: Option<int>): Option<int> {
    if fromPlan.Some? then fromPlan else fromSummary
  }

  /** `_phases_to_resume`: the required fields that are unknown, phase by phase. */
  method UnknownFields(p: PhaseRecord, q: QuotaRecord, summary: QuotaRecord) returns (unknowns: seq<string>)
    ensures unknowns == [] <==> PhasesDecided(p) && QuotaKnown(p, q, summary)
  {
    unknowns := [];
    var welcome, follow := QuotaRemaining(q.welcome, summary.welcome), QuotaRemaining(q.follow, summary.follow);
    var unfollow := QuotaRemaining(q.unfollow, summary.unfollow);
    var fields := [(p.welcome, welcome, "welcome"), (p.follow, follow, "follow"), (p.unfollow, unfollow, "unfollow")];
    for i := 0 to 3
      invariant unknowns == [] <==>
                forall k :: 0 <= k < i ==> fields[k].0.Some? && (fields[k].0.value ==> fields[k].1.Some?)
    {
      var (planned, remaining, phase) := fields[i];
      if planned.None? {
        unknowns := unknowns + ["phases_to_run." + phase];
      } else if planned.value && remaining.None? {
        unknowns := unknowns + ["quota_remaining." + phase];
      }
    }
    assert fields[0] == (p.welcome, welcome, "welcome") && fields[1] == (p.follow, follow, "follow")
      && fields[2] == (p.unfollow, unfollow, "unfollow");
  }

  /** `build_manual_resume_command`, the part that a claim relies on: whether it allows the command, and why not. */
  method ManualResumeBlock(plan: StoredPlan, prior: PriorRun) returns (allowed: bool, reason: string)
    ensures allowed <==> ManualResumeAllowed(plan, prior)
    ensures prior.unsafeMarkers != [] ==> reason == prior.unsafeMarkers[0]
    ensures prior.unsafeMarkers == [] ==>
              reason == if RestartAllowed(plan, prior) == Some(false) then "restart_not_allowed"
                        else if ManualResumeAllowed(plan, prior) then "" else "unknown_required_field"
  {
    var unknowns := UnknownFields(plan.phases.GetOr(NO_PHASES), plan.quota.GetOr(NO_QUOTA), prior.summaryQuota);
    var restart := RestartAllowed(plan, prior);
    allowed, reason := false, "";
    if prior.unsafeMarkers != [] {
      reason := prior.unsafeMarkers[0];
    } else if restart.Some? && !restart.value {
      reason := "restart_not_allowed";
    } else if restart.None? || !prior.identified || unknowns != [] {
      reason := "unknown_required_field";
    } else {
      allowed := true;
    }
  }

  /** What such a retry has to show besides the attempt identity. */
  predicate RecoverableAccepted(r: Request, c: AttemptContext) {
    && Text.Strip(r.businessSessionId) != ""
    && Text.Strip(if r.previousRunId != "" then r.previousRunId else r.priorRunId) == Text.Strip(r.priorRunId)
    && c.retryIndex in {1, 2} && c.attemptId == c.retryIndex + 1
    && r.cleanupCompleted && r.lockReleased
    && r.rootFailureCode == "unfollow_runtime_exception"
    && r.failureSignature == "python:unfollow:duplicate_stop_reason"
  }

  /** The automatic path of `validate_auto_restart_request_at_claim`. */
  method ValidateAtClaim(r: Request, prior: Option<PriorRun>) returns (claim: Claim)
    ensures claim.Granted? ==> Grants(r, prior, claim.policy)
    ensures claim.Rejected? ==> forall policy :: !Grants(r, prior, policy)
  {
    hide Systemic, RecoverableRetry, RecoverableAccepted, SchemaAccepted, Text.Strip, ManualResumeAllowed;
    if Systemic(r) {
      return Rejected("same_release_systemic_persistence_failure");
    }
    if Text.Strip(r.priorRunId) == "" || !SchemaAccepted(r) {
      return Rejected("resume_plan_invalid");
    }
    var context := CanonicalRequestAttemptContext(r.top, r.embeddedIds);
    if context.None? {
      return Rejected("resume_plan_invalid");
    }
    assert forall c :: Identifies(Deciding(r.top, r.embeddedIds), c) ==> c == context.value;
    if RecoverableRetry(r) && !RecoverableAccepted(r, context.value) {
      return Rejected("resume_plan_invalid");
    }
    if prior.None? {
      return Rejected("resume_plan_invalid");
    }
    var plan := Merged(prior.value.plan, r.embedded);
    var allowed, block := ManualResumeBlock(plan, prior.value);
    if !allowed {
      return Rejected(if block == "" then "resume_plan_invalid" else block);
    }
    var phases := plan.phases.GetOr(NO_PHASES);
    var quota := if r.embedded.quota.Some? then r.embedded.quota.value else plan.quota.GetOr(NO_QUOTA);
    var reason := ValidateQuotaConsistency(phases, quota);
    if reason != "" {
      return Rejected(reason);
    }
    return Granted(Policy(phases, quota, context.value.attemptId, context.value.retryIndex));
  }

  /** A request is granted exactly this policy. */
  ghost predicate Grants(r: Request, prior: Option<PriorRun>, policy: Policy) {
    && !Systemic(r) && Text.Strip(r.priorRunId) != "" && SchemaAccepted(r)
    && Identifies(Deciding(r.top, r.embeddedIds), AttemptContext(policy.attemptId, policy.retryIndex))
    && (RecoverableRetry(r) ==> RecoverableAccepted(r, AttemptContext(policy.attemptId, policy.retryIndex)))
    && prior.Some?
    && var plan := Merged(prior.value.plan, r.embedded);
       && ManualResumeAllowed(plan, prior.value)
       && plan.phases == Some(policy.phases)
       && plan.quota.GetOr(NO_QUOTA) == policy.quota
       && QuotaConsistent(policy.phases, policy.quota)
  }

  /** The layer that names the attempt: the top level when it gives one of its two attempt fields. */
  function NamingLayer(r: Request): Layer {
    if r.top.attemptId == Missing && r.top.currentAttemptId == Missing then r.embeddedIds else r.top
  }

  /** The field is left out or holds just this number. */
  predicate Agrees(raw: Raw, n: int) {
    raw == Missing || raw == Number(n)
  }

  /** A retry of a recoverable failure is granted only to a named session, for the run before it, as the first or
      the second retry, after the cleanup and with the device lock released, for the one known failure. */
  lemma RecoverableGranted(r: Request, prior: Option<PriorRun>, policy: Policy)
    requires Grants(r, prior, policy) && r.failureCategory == "recoverable_python_runtime_failure"
    ensures r.cleanupCompleted && r.lockReleased
    ensures Text.Strip(r.businessSessionId) != "" && Text.Strip(r.priorRunId) != ""
    ensures r.previousRunId != "" ==> Text.Strip(r.previousRunId) == Text.Strip(r.priorRunId)
    ensures policy.retryIndex == 1 || policy.retryIndex == 2
    ensures policy.attemptId == policy.retryIndex + 1
    ensures r.rootFailureCode == "unfollow_runtime_exception"
    ensures r.failureSignature == "python:unfollow:duplicate_stop_reason"
  {
    hide SchemaAccepted, Text.Strip, ManualResumeAllowed, QuotaConsistent, Identifies;
  }

  /** A quota that a planned phase needs: known, positive. */
  predicate Funded(planned: Option<bool>, quota: Option<int>) {
    planned == Some(true) ==> quota.Some? && quota.value > 0
  }

  /** Which requests are granted which policy, by fields: no systemic failure, a named prior run, one of two schemas
      with its version, an attempt that its layer agrees on, for a recoverable failure the proofs that belong to it; a
      prior run of an identified account without an unsafe marker; a merged plan that allows the restart and decides
      every phase, some of them planned; and quotas that are known and positive for each planned phase and fit into a
      known total. */
  lemma GrantedExactly(r: Request, prior: PriorRun, policy: Policy)
    ensures Grants(r, Some(prior), policy)
       <==> && Text.Strip(r.failureCategory) != "systemic_persistence_failure"
            && Text.Strip(r.rootFailureCode) != "follow_persistence_runtime_unavailable"
            && Text.Strip(r.priorRunId) != ""
            && ((Text.Strip(r.schema) == "AUTO_RESTART_RESUME_PLAN_V1" && r.version == 1)
                || (Text.Strip(r.schema) == "AUTO_RESTART_RESUME_PLAN_V2" && r.version == 2))
            && GrantsAttempt(r, policy) && GrantsRetry(r, policy)
            && prior.unsafeMarkers == [] && prior.identified
            && (if r.embedded.restartAllowed.Some? then r.embedded.restartAllowed
                else if prior.plan.restartAllowed.Some? then prior.plan.restartAllowed
                else prior.restartAllowed) == Some(true)
            && GrantsPlan(r, prior, policy)
  {
    AttemptExactly(r, policy);
    PlanExactly(r, prior, policy);
    hide Text.Strip, Identifies, GrantsAttempt, GrantsPlan, PhasesDecided, QuotaKnown, QuotaConsistent;
  }

  lemma AttemptExactly(r: Request, policy: Policy)
    ensures Identifies(Deciding(r.top, r.embeddedIds), AttemptContext(policy.attemptId, policy.retryIndex))
       <==> GrantsAttempt(r, policy)
    ensures GrantsAttempt(r, policy) ==> policy.attemptId == policy.retryIndex + 1
  {
  }

  lemma PlanExactly(r: Request, prior: PriorRun, policy: Policy)
    ensures var plan := Merged(prior.plan, r.embedded);
            && plan.phases == Some(policy.phases) && plan.quota.GetOr(NO_QUOTA) == policy.quota
            && PhasesDecided(plan.phases.GetOr(NO_PHASES))
            && QuotaKnown(plan.phases.GetOr(NO_PHASES), plan.quota.GetOr(NO_QUOTA), prior.summaryQuota)
            && QuotaConsistent(policy.phases, policy.quota)
            <==> GrantsPlan(r, prior, policy)
  {
  }

  ghost predicate GrantsAttempt(r: Request, policy: Policy) {
    var l := NamingLayer(r);
    && (l.attemptId != Missing || l.currentAttemptId != Missing)
    && Agrees(l.attemptId, policy.attemptId) && Agrees(l.currentAttemptId, policy.attemptId)
    && Agrees(l.retryIndex, policy.retryIndex)
    && policy.attemptId >= 1 && policy.retryIndex == policy.attemptId - 1
  }

  ghost predicate GrantsRetry(r: Request, policy: Policy) {
    r.failureCategory == "recoverable_python_runtime_failure" ==>
      && Text.Strip(r.businessSessionId) != ""
      && (r.previousRunId == "" || Text.Strip(r.previousRunId) == Text.Strip(r.priorRunId))
      && (policy.attemptId == 2 || policy.attemptId == 3)
      && r.cleanupCompleted && r.lockReleased
      && r.rootFailureCode == "unfollow_runtime_exception"
      && r.failureSignature == "python:unfollow:duplicate_stop_reason"
  }

  ghost predicate GrantsPlan(r: Request, prior: PriorRun, policy: Policy) {
    var p, q := policy.phases, policy.quota;
    && Some(p) == (if r.embedded.phases.Some? then r.embedded.phases else prior.plan.phases)
    && Some(q) == (if r.embedded.quota.Some? then r.embedded.quota
                   else if prior.plan.quota.Some? then prior.plan.quota
                   else Some(QuotaRecord(None, None, None, None)))
    && p.welcome.Some? && p.follow.Some? && p.unfollow.Some?
    && (p.welcome.value || p.follow.value || p.unfollow.value)
    && Funded(p.welcome, q.welcome) && Funded(p.follow, q.follow) && Funded(p.unfollow, q.unfollow)
    && (q.total.Some? ==>
          (if p.welcome.value then q.welcome.value else 0) + (if p.follow.value then q.follow.value else 0)
          + (if p.unfollow.value then q.unfollow.value else 0) <= q.total.value)
  }

  /** The summary's own quotas can let the command through, but no claim: what is granted, and whether, does not
      depend on them. */
  lemma SummaryQuotaNeverGrants(r: Request, prior: PriorRun, policy: Policy, other: QuotaRecord)
    ensures Grants(r, Some(prior), policy) <==> Grants(r, Some(prior.(summaryQuota := other)), policy)
  {
    hide SchemaAccepted, Identifies, RecoverableAccepted;
  }

  // -----------------------------------------------------------------------
  // Reading a policy

  /** Any policy dictionary, whether or not a claim produced it. */
  datatype AnyPolicy = AnyPolicy(phases: PhaseRecord, quota: QuotaRecord)

  /** `phase_enabled`, under a policy. */
  predicate PhaseEnabled(planned: Option<bool>, default: bool) {
    if planned.Some? then planned.value else default
  }

  /** `run_follow` of `_resolve_auto_restart_follow_phase_gate`; `None` is "no policy". */
  predicate RunsFollow(policy: Option<AnyPolicy>, default: bool) {
    if policy.None? then default
    else
      var p := policy.value;
      default && PhaseEnabled(p.phases.follow, default) && !(p.quota.follow.Some? && p.quota.follow.value <= 0)
  }

  /** `unfollow_only_resume` of the same gate. */
  predicate UnfollowOnly(policy: Option<AnyPolicy>, default: bool) {
    && policy.Some?
    && !RunsFollow(policy, default)
    && policy.value.phases.unfollow == Some(true)
    && (policy.value.quota.unfollow.None? || policy.value.quota.unfollow.value > 0)
  }

  /** `_authorized_resume_follow_quota` */
  function AuthorizedFollowQuota(policy: Option<AnyPolicy>): Option<int> {
    if policy.None? || policy.value.phases.follow != Some(true) then None
    else if policy.value.quota.follow.Some? && policy.value.quota.follow.value > 0 then policy.value.quota.follow
    else None
  }

  function Any(p: Policy): AnyPolicy {
    AnyPolicy(p.phases, p.quota)
  }

  /** The phase gate, by fields: Follow runs unless Welcome holds it back, the policy leaves it out or its quota is used
      up; it runs under a quota when the policy plans it with a positive one; and a session is an unfollow-only resume
      when Follow does not run and the policy plans Unfollow with quota left. */
  lemma PhaseGateExactly(policy: Option<AnyPolicy>, afterWelcome: bool, n: int)
    ensures RunsFollow(policy, afterWelcome)
       <==> && afterWelcome
            && (policy.Some? ==>
                  && policy.value.phases.follow != Some(false)
                  && (policy.value.quota.follow.Some? ==> policy.value.quota.follow.value >= 1))
    ensures AuthorizedFollowQuota(policy) == Some(n)
       <==> policy.Some? && policy.value.phases.follow == Some(true) && policy.value.quota.follow == Some(n) && n >= 1
    ensures UnfollowOnly(policy, afterWelcome)
       <==> && policy.Some? && policy.value.phases.unfollow == Some(true)
            && (policy.value.quota.unfollow.Some? ==> policy.value.quota.unfollow.value >= 1)
            && (|| !afterWelcome || policy.value.phases.follow == Some(false)
                || (policy.value.quota.follow.Some? && policy.value.quota.follow.value <= 0))
  {
  }

  /** A policy lets Follow run without a bound exactly when it leaves the Follow quota out, or gives
      one but does not decide the Follow phase. */
  lemma UnboundedFollow(p: AnyPolicy)
    ensures RunsFollow(Some(p), true) && AuthorizedFollowQuota(Some(p)).None?
            <==> || (p.phases.follow != Some(false) && p.quota.follow.None?)
                 || (p.phases.follow.None? && p.quota.follow.Some? && p.quota.follow.value > 0)
  {
  }

  /** A granted policy never does: what it lets run is bounded by the quota it carries. */
  lemma GrantedFollowIsBounded(r: Request, prior: Option<PriorRun>, policy: Policy, default: bool)
    requires Grants(r, prior, policy)
    ensures RunsFollow(Some(Any(policy)), default) ==>
              && policy.phases.follow == Some(true)
              && AuthorizedFollowQuota(Some(Any(policy))) == policy.quota.follow
              && policy.quota.follow.Some? && policy.quota.follow.value > 0
  {
    hide SchemaAccepted;
  }

  /** Every granted claim has an attempt of at least 1, one above its retry index, and the top level
      of the request decides it as soon as it names an attempt. */
  lemma GrantedAttempt(r: Request, prior: Option<PriorRun>, policy: Policy)
    requires Grants(r, prior, policy)
    ensures policy.attemptId >= 1 && policy.attemptId == policy.retryIndex + 1
    ensures r.top.attemptId.Number? ==> policy.attemptId == r.top.attemptId.n
    ensures !NamesAttempt(r.top) && r.embeddedIds.attemptId.Number? ==> policy.attemptId == r.embeddedIds.attemptId.n
  {
    hide SchemaAccepted;
  }

  /** Under a granted policy a session is an unfollow-only resume exactly when Unfollow is planned and Follow is
      not, or Follow is held back for another reason. */
  lemma GrantedUnfollowOnly(r: Request, prior: Option<PriorRun>, policy: Policy, default: bool)
    requires Grants(r, prior, policy)
    ensures UnfollowOnly(Some(Any(policy)), default)
       <==> policy.phases.unfollow == Some(true) && !(default && policy.phases.follow == Some(true))
  {
    hide SchemaAccepted;
  }
}
