/** A lineage: an account session and the automatic restarts that follow from its plans. */
module Lineage {
  import opened Options
  import Text
  import FD = FollowDecision
  import RT = RotationTargets
  import R = Rotation
  import Facts = RotationTheorems
  import P = ResumePlan
  import C = ClaimValidation

  /** One session: the policy it runs under (`None` for the first), its Follow rotation if Follow
      ran, the summary it reports and the plan built from that. */
  datatype Leg = Leg(policy: Option<C.Policy>, rotation: Option<R.Setup>, summary: P.Summary, plan: P.Plan)

  function PolicyOf(leg: Leg): Option<C.AnyPolicy> {
    if leg.policy.None? then None else Some(C.Any(leg.policy.value))
  }

  /** The follows made in a session. */
  function MadeIn(leg: Leg): nat {
    if leg.rotation.None? then 0
    else
      var attempts := R.Rotate(leg.rotation.value).attempts;
      Facts.Made(attempts, |attempts|)
  }

  /** The follows made in a session that the engine left out of its counts. */
  function UnreportedIn(leg: Leg): nat {
    if leg.rotation.None? then 0
    else
      var attempts := R.Rotate(leg.rotation.value).attempts;
      Facts.Unreported(attempts, |attempts|)
  }

  /** The Follow goal that the rotation leaves in its summary. */
  function ReportedGoal(o: R.Outcome): Option<int> {
    if o.attempts == [] then Some(0)
    else if o.goal.Some? then o.goal
    else o.attempts[|o.attempts| - 1].reply.ownGoal
  }

  function ReportedCount(o: R.Outcome): int {
    if o.attempts == [] then 0 else o.total
  }

  /** The Follow fields of the session summary. A phase that the policy leaves out is reported as
      skipped cleanly; a planned phase that did not run leaves its counters out, except that a
      policy with a zero quota is reported as complete. */
  ghost predicate ReportsFollow(leg: Leg) {
    var s := leg.summary;
    && (match leg.rotation
        case Some(setup) =>
          var o := R.Rotate(setup);
          && s.followTargets == [ReportedGoal(o), ReportedGoal(o)]
          && s.followsCompleted == Some(ReportedCount(o))
          && s.followRemaining == P.LeftOver(ReportedGoal(o), Some(ReportedCount(o)))
        case None =>
          || (s.followTargets == [None, None] && s.followsCompleted.None? && s.followRemaining.None?)
          || (&& leg.policy.Some? && leg.policy.value.quota.follow.Some? && leg.policy.value.quota.follow.value <= 0
              && s.followTargets == [Some(0), Some(0)] && s.followsCompleted == Some(0)
                  && s.followRemaining == Some(0)))
    && (s.followExcluded <==> leg.policy.Some? && leg.policy.value.phases.follow == Some(false))
    && (leg.rotation.None? && leg.policy.Some? && leg.policy.value.phases.follow == Some(false) ==>
          s.followPhaseStatus == "skipped_cleanly" && s.followDecision.None?)
    && s.attemptIds == [Some(AttemptOf(leg)), Some(AttemptOf(leg)), Some(AttemptOf(leg))]
  }

  function AttemptOf(leg: Leg): int {
    if leg.policy.Some? then leg.policy.value.attemptId else 1
  }

  /** A session as the code runs it: Follow runs only through the phase gate and with the policy's
      authorized quota, the engine keeps to its budgets, and the plan is built from the reported
      summary. */
  ghost predicate Session(leg: Leg, maxRetries: Option<int>) {
    && (leg.rotation.Some? ==>
          && C.RunsFollow(PolicyOf(leg), true)
          && leg.rotation.value.quota == C.AuthorizedFollowQuota(PolicyOf(leg))
          && R.HonoursBudget(leg.rotation.value.engine))
    && ReportsFollow(leg)
    && P.IsPlanOf(leg.plan, leg.summary, maxRetries)
  }

  /** The request that carries a plan: its next attempt and retry index at the top level, and the
      plan itself, with its own attempt, embedded. */
  ghost predicate Carries(r: C.Request, plan: P.Plan) {
    && r.top.attemptId == (if plan.nextAttemptId.Some? then C.Number(plan.nextAttemptId.value) else C.Missing)
    && r.top.currentAttemptId.Missing?
    && r.top.retryIndex == (if plan.nextRetryIndex.Some? then C.Number(plan.nextRetryIndex.value) else C.Missing)
    && r.embeddedIds == C.Layer(C.Number(plan.attemptId), C.Number(plan.attemptId), C.Number(plan.retryIndex))
    && r.embedded == C.StoredPlan(
                       Some(plan.restartAllowed),
                       Some(C.PhaseRecord(plan.phases.welcome, plan.phases.follow, plan.phases.unfollow)),
                       Some(C.QuotaRecord(None, plan.remaining.follow, plan.remaining.unfollow, plan.remaining.total)))
  }

  /** `next` was claimed from a request that carries the plan of `leg`. */
  ghost predicate RestartedFrom(leg: Leg, next: Leg) {
    next.policy.Some? && exists r, prior :: Carries(r, leg.plan) && C.Grants(r, prior, next.policy.value)
  }

  ghost predicate IsLineage(legs: seq<Leg>, maxRetries: Option<int>) {
    && |legs| > 0 && legs[0].policy.None?
    && (forall k :: 0 <= k < |legs| ==> Session(legs[k], maxRetries))
    && (forall k :: 0 < k < |legs| ==> RestartedFrom(legs[k - 1], legs[k]))
  }

  // -----------------------------------------------------------------------
  // One restart

  /** The plan's remaining Follow quota, nothing when it is unknown. */
  function Remaining(leg: Leg): int {
    leg.plan.remaining.follow.GetOr(0)
  }

  lemma PolicyFromPlan(leg: Leg, next: Leg)
    requires RestartedFrom(leg, next)
    ensures next.policy.Some?
    ensures var p := next.policy.value;
            && leg.plan.restartAllowed
            && p.phases.follow == leg.plan.phases.follow && p.phases.follow.Some?
            && p.quota.follow == leg.plan.remaining.follow
            && (p.phases.follow == Some(true) ==> p.quota.follow.Some? && p.quota.follow.value > 0)
  {
    hide C.SchemaAccepted;
    var r, prior :| Carries(r, leg.plan) && C.Grants(r, prior, next.policy.value);
  }

  lemma FollowRemainingNonNegative(leg: Leg, maxRetries: Option<int>)
    requires Session(leg, maxRetries)
    ensures Remaining(leg) >= 0
  {
    hide R.Rotate, P.FollowPhase, P.WelcomePhase, P.UnfollowPhase, P.UnfollowRemaining, P.TotalRemaining,
      P.RecoveryPending, P.BlockReason, P.RetriesExhausted, P.FollowExcluded;
  }

  /** What a rotation under an authorized quota makes and what it leaves open fit in that quota, up to what the
      engine leaves out of its counts. */
  lemma RotationWithinQuota(s: R.Setup, q: int)
    requires s.quota == Some(q) && q > 0 && R.HonoursBudget(s.engine)
    ensures var o := R.Rotate(s);
            var n := |o.attempts|;
            && ReportedGoal(o).Some?
            && Facts.Made(o.attempts, n) + Max(0, ReportedGoal(o).value - ReportedCount(o))
               <= q + Facts.Unreported(o.attempts, n)
  {
    hide R.Rotate, R.Run, Facts.Accounted;
    Facts.RotationBoundUpToUnreported(s);
    Facts.RotateBooks(s);
    var attempts := R.Rotate(s).attempts;
    if attempts != [] {
      Facts.MadeIsBookedOrUnreported(s, attempts, |attempts|);
      Facts.GoalOnlyShrinks(s, attempts, |attempts|);
    }
  }

  /** One restart conserves the Follow allowance: what the new session makes and what its plan leaves
      open exceed what the previous plan left open by no more than what the engine leaves out of its counts. */
  lemma RestartConserves(leg: Leg, next: Leg, maxRetries: Option<int>)
    requires Session(leg, maxRetries) && Session(next, maxRetries) && RestartedFrom(leg, next)
    ensures MadeIn(next) + Remaining(next) <= Remaining(leg) + UnreportedIn(next)
  {
    hide R.Rotate, P.FollowPhase, P.WelcomePhase, P.UnfollowPhase, P.UnfollowRemaining, P.TotalRemaining,
      P.RecoveryPending, P.BlockReason, P.RetriesExhausted, R.HonoursBudget;
    PolicyFromPlan(leg, next);
    FollowRemainingNonNegative(leg, maxRetries);
    if next.rotation.Some? {
      RotationWithinQuota(next.rotation.value, next.policy.value.quota.follow.value);
    }
  }

  /** No restarted session runs Follow without a positive authorized bound. */
  lemma RestartedFollowIsBounded(leg: Leg, next: Leg, maxRetries: Option<int>)
    requires Session(next, maxRetries) && RestartedFrom(leg, next) && next.rotation.Some?
    ensures next.rotation.value.quota.Some? && next.rotation.value.quota.value > 0
    ensures next.rotation.value.quota == leg.plan.remaining.follow
  {
    hide ReportsFollow, P.IsPlanOf;
    PolicyFromPlan(leg, next);
  }

  /** A policy without Follow leads to a plan without Follow and with nothing left of it. */
  lemma DroppedFollowStaysOut(leg: Leg, maxRetries: Option<int>)
    requires Session(leg, maxRetries) && leg.policy.Some? && leg.policy.value.phases.follow == Some(false)
    ensures leg.rotation.None? && leg.plan.phases.follow == Some(false) && leg.plan.remaining.follow == Some(0)
  {
    hide R.Rotate, P.WelcomePhase, P.UnfollowPhase, P.UnfollowRemaining, P.TotalRemaining,
      P.RecoveryPending, P.BlockReason, P.RetriesExhausted, R.HonoursBudget;
  }

  /** A session in which Follow did not run, for whatever reason, leaves a plan without Follow or none that
      allows a restart. */
  lemma UnrunFollowIsDropped(leg: Leg, maxRetries: Option<int>)
    requires Session(leg, maxRetries) && leg.rotation.None? && leg.plan.restartAllowed
    ensures leg.plan.phases.follow == Some(false)
  {
    hide R.Rotate, P.WelcomePhase, P.UnfollowPhase, P.UnfollowRemaining, P.TotalRemaining,
      P.RecoveryPending, P.InitialBlock, P.Resumable;
  }

  // -----------------------------------------------------------------------
  // Whole lineages

  function TotalMade(legs: seq<Leg>): nat {
    if legs == [] then 0 else TotalMade(legs[..|legs| - 1]) + MadeIn(legs[|legs| - 1])
  }

  lemma LineagePrefix(legs: seq<Leg>, maxRetries: Option<int>)
    requires IsLineage(legs, maxRetries) && |legs| > 1
    ensures IsLineage(legs[..|legs| - 1], maxRetries)
  {
    hide Session, RestartedFrom;
  }

  /** What the sessions after the first left out of their counts. */
  function UnreportedLater(legs: seq<Leg>): nat {
    if |legs| <= 1 then 0 else UnreportedLater(legs[..|legs| - 1]) + UnreportedIn(legs[|legs| - 1])
  }

  /** Over a lineage, the follows made so far plus what the latest plan leaves open exceed what the first session
      made plus what its plan left open by no more than what the later sessions left out of their counts. */
  lemma {:induction false} LineageConserves(legs: seq<Leg>, maxRetries: Option<int>)
    requires IsLineage(legs, maxRetries)
    ensures TotalMade(legs) + Remaining(legs[|legs| - 1])
         <= MadeIn(legs[0]) + Remaining(legs[0]) + UnreportedLater(legs)
    decreases |legs|
  {
    hide Session, RestartedFrom, MadeIn, UnreportedIn;
    var n := |legs| - 1;
    var before := legs[..n];
    if n == 0 {
      assert TotalMade(before) == 0;
    } else {
      LineagePrefix(legs, maxRetries);
      LineageConserves(before, maxRetries);
      assert Session(legs[n - 1], maxRetries) && Session(legs[n], maxRetries) && RestartedFrom(legs[n - 1], legs[n]);
      RestartConserves(legs[n - 1], legs[n], maxRetries);
    }
  }

  /** The session's engine, if Follow ran at all, counts every follow it makes. */
  ghost predicate Honest(leg: Leg) {
    leg.rotation.Some? ==> R.ReportsEveryFollow(leg.rotation.value.engine)
  }

  lemma HonestSession(leg: Leg)
    requires Honest(leg) && (leg.rotation.Some? ==> R.HonoursBudget(leg.rotation.value.engine))
    ensures UnreportedIn(leg) == 0
  {
    hide R.Rotate, R.Run, Facts.Accounted;
    if leg.rotation.Some? {
      Facts.RotateBooks(leg.rotation.value);
      var attempts := R.Rotate(leg.rotation.value).attempts;
      Facts.HonestCounts(leg.rotation.value, attempts, |attempts|);
    }
  }

  lemma {:induction false} HonestSessions(legs: seq<Leg>, maxRetries: Option<int>)
    requires IsLineage(legs, maxRetries) && forall k :: 0 < k < |legs| ==> Honest(legs[k])
    ensures UnreportedLater(legs) == 0
    decreases |legs|
  {
    hide ReportsFollow, P.IsPlanOf, UnreportedIn, Honest, RestartedFrom;
    if |legs| > 1 {
      LineagePrefix(legs, maxRetries);
      assert Session(legs[|legs| - 1], maxRetries);
      HonestSessions(legs[..|legs| - 1], maxRetries);
      HonestSession(legs[|legs| - 1]);
    }
  }

  /** With honest counts in the restarted sessions the allowance of the first one is never exceeded. */
  lemma HonestLineageConserves(legs: seq<Leg>, maxRetries: Option<int>)
    requires IsLineage(legs, maxRetries) && forall k :: 0 < k < |legs| ==> Honest(legs[k])
    ensures TotalMade(legs) + Remaining(legs[|legs| - 1]) <= MadeIn(legs[0]) + Remaining(legs[0])
  {
    hide IsLineage, Honest, TotalMade, Remaining, MadeIn, UnreportedLater;
    LineageConserves(legs, maxRetries);
    HonestSessions(legs, maxRetries);
  }

  /** Once a session of a lineage runs without Follow, the first one included, no later session follows. */
  lemma {:induction false} LineageKeepsFollowDropped(legs: seq<Leg>, maxRetries: Option<int>, k: nat, m: nat)
    requires IsLineage(legs, maxRetries) && k <= m < |legs|
    requires || legs[k].rotation.None?
             || (legs[k].policy.Some? && legs[k].policy.value.phases.follow == Some(false))
    ensures legs[m].rotation.None?
    ensures k < m ==> legs[m].policy.Some? && legs[m].policy.value.phases.follow == Some(false)
    decreases m - k
  {
    hide Session, RestartedFrom;
    assert Session(legs[k], maxRetries);
    if legs[k].rotation.Some? {
      DroppedFollowStaysOut(legs[k], maxRetries);
    } else if k < m {
      assert RestartedFrom(legs[k], legs[k + 1]);
      PolicyFromPlan(legs[k], legs[k + 1]);
      UnrunFollowIsDropped(legs[k], maxRetries);
      assert Session(legs[k + 1], maxRetries);
      DroppedFollowStaysOut(legs[k + 1], maxRetries);
      LineageKeepsFollowDropped(legs, maxRetries, k + 1, m);
    }
  }

  /** The attempt of a restart: the one that the plan names, or the plan's own when it names none. */
  lemma RestartAttempt(leg: Leg, next: Leg, maxRetries: Option<int>)
    requires Session(leg, maxRetries) && RestartedFrom(leg, next) && AttemptOf(leg) >= 1
    ensures leg.plan.attemptId == AttemptOf(leg)
    ensures AttemptOf(next) == AttemptOf(leg) + if AttemptOf(leg) < P.TOTAL_ATTEMPTS then 1 else 0
    ensures AttemptOf(leg) <= Max(0, maxRetries.GetOr(P.MAX_RETRIES_DEFAULT))
    ensures next.policy.value.attemptId == next.policy.value.retryIndex + 1
  {
    hide C.SchemaAccepted, R.Rotate, P.FollowRemaining, P.UnfollowRemaining, P.TotalRemaining, P.PhasesOf,
      R.HonoursBudget;
    var r, prior :| Carries(r, leg.plan) && C.Grants(r, prior, next.policy.value);
    P.AllowedPlan(leg.plan, leg.summary, maxRetries);
    C.GrantedAttempt(r, prior, next.policy.value);
  }

  /** With at most two retries, each restart is one attempt further, so a lineage has at most one
      attempt more than it has retries. */
  lemma {:induction false} LineageIsBounded(legs: seq<Leg>, maxRetries: Option<int>)
    requires IsLineage(legs, maxRetries)
    requires maxRetries.GetOr(P.MAX_RETRIES_DEFAULT) <= P.MAX_RETRIES_DEFAULT
    ensures AttemptOf(legs[|legs| - 1]) == |legs|
    ensures |legs| <= Max(0, maxRetries.GetOr(P.MAX_RETRIES_DEFAULT)) + 1
    decreases |legs|
  {
    hide Session, RestartedFrom;
    var n := |legs| - 1;
    if n > 0 {
      LineagePrefix(legs, maxRetries);
      LineageIsBounded(legs[..n], maxRetries);
      assert Session(legs[n - 1], maxRetries) && RestartedFrom(legs[n - 1], legs[n]);
      RestartAttempt(legs[n - 1], legs[n], maxRetries);
    }
  }

  // -----------------------------------------------------------------------
  // Lineages that resume Follow, of every length the retries allow

  /** A session that makes no follow towards a goal of five. */
  function IdleReply(): R.Reply {
    R.Reply(0, 0, Some(0), "", "", None, None, None, Some(5), None, "", false, false, "", "", "",
            false, false, false, None, FD.Signals([], "", ""))
  }

  function IdleSetup(target: RT.Target, quota: Option<int>, scope: FD.Scope): R.Setup {
    R.Setup([target], None, None, quota, scope, (i: nat, c: R.Call) => IdleReply(), (i: nat) => false)
  }

  lemma IdleRotation(target: RT.Target, quota: Option<int>, scope: FD.Scope)
    requires target.key != "" && (quota == None || quota == Some(5))
    ensures var o := R.Rotate(IdleSetup(target, quota, scope));
            ReportedGoal(o) == Some(5) && ReportedCount(o) == 0
  {
    hide R.Rotate, R.Run, R.BranchOf, R.FinalDecision, Facts.StartsFromProof, R.MaxTargets, R.MaxFollowsPerTarget;
    var s := IdleSetup(target, quota, scope);
    assert |s.Targets()| <= 1;
    Facts.RotationShape(s);
    Facts.RotateBooks(s);
    var o := R.Rotate(s);
    assert |o.attempts| == 1 && Facts.Accounted(s, o.attempts, 0);
    assert o.goal == Facts.GoalBefore(s, o.attempts, 1) && o.total == Facts.TotalBefore(o.attempts, 1);
    assert o.attempts[0].reply == IdleReply();
    IdleBooks();
  }

  lemma IdleBooks()
    ensures R.NewTotal(0, IdleReply()) == 0
    ensures R.NewGoal(None, IdleReply()) == Some(5) && R.NewGoal(Some(5), IdleReply()) == Some(5)
  {
  }

  function IdleSummary(attempt: int): P.Summary {
    P.Summary("partial_resumable", "eligible", [], false, "", false, false, false,
              [Some(attempt), Some(attempt), Some(attempt)], [Some(5), Some(5)], Some(0), Some(5), false, "", None,
              [], [], [], P.UnfollowOutcome("disabled", false, None, ""), None, Some(false), "")
  }

  function IdlePlan(attempt: nat, retries: nat): P.Plan {
    P.Plan(true, "", attempt, if attempt < P.TOTAL_ATTEMPTS then Some(attempt + 1) else None,
           attempt - 1, Some(attempt), retries,
           P.Phases(Some(false), false, Some(true), Some(false)), P.Quotas(Some(5), Some(0), Some(5)))
  }

  const FOLLOW_ONLY := C.PhaseRecord(Some(false), Some(true), Some(false))
  const FIVE_FOLLOWS := C.QuotaRecord(None, Some(5), Some(0), Some(5))

  /** The policy of the given attempt; the first session has none. */
  function IdlePolicy(attempt: nat): Option<C.Policy> {
    if attempt <= 1 then None else Some(C.Policy(FOLLOW_ONLY, FIVE_FOLLOWS, attempt, attempt - 1))
  }

  function IdleLeg(target: RT.Target, scope: FD.Scope, attempt: nat, retries: nat): Leg {
    Leg(IdlePolicy(attempt), Some(IdleSetup(target, if attempt <= 1 then None else Some(5), scope)),
        IdleSummary(attempt), IdlePlan(attempt, retries))
  }

  lemma IdlePlanIsBuilt(attempt: nat, retries: nat)
    requires 1 <= attempt <= 3 && attempt <= retries
    ensures P.IsPlanOf(IdlePlan(attempt, retries), IdleSummary(attempt), Some(retries))
  {
    var s := IdleSummary(attempt);
    assert P.WelcomePhase(s) == Some(false) && P.FollowRemaining(s) == Some(5) && P.UnfollowRemaining(s) == Some(0);
    assert P.FollowPhase(s) == Some(true) && P.UnfollowPhase(s) == Some(false) && P.CurrentAttempt(s) == attempt;
  }

  /** The request that carries the plan of an attempt. */
  function IdleRequest(attempt: nat): C.Request {
    C.Request("", "", "", "", "", false, false, "run", "AUTO_RESTART_RESUME_PLAN_V1", 1,
              C.Layer(if attempt < 3 then C.Number(attempt + 1) else C.Missing, C.Missing, C.Number(attempt)),
              C.Layer(C.Number(attempt), C.Number(attempt), C.Number(attempt - 1)),
              C.StoredPlan(Some(true), Some(FOLLOW_ONLY), Some(FIVE_FOLLOWS)))
  }

  function IdlePrior(): C.PriorRun {
    C.PriorRun(C.StoredPlan(None, None, None), None, C.NO_QUOTA, [], true)
  }

  lemma IdleGranted(attempt: nat)
    requires 1 <= attempt <= 3
    ensures C.Grants(IdleRequest(attempt), Some(IdlePrior()), IdlePolicy(Min(attempt + 1, 3)).value)
  {
    C.GrantedExactly(IdleRequest(attempt), IdlePrior(), IdlePolicy(Min(attempt + 1, 3)).value);
    assert Text.Strip("run") == "run" && Text.Strip("") == "";
    assert Text.Strip("AUTO_RESTART_RESUME_PLAN_V1") == "AUTO_RESTART_RESUME_PLAN_V1";
    hide C.Grants, Text.Strip;
  }

  /** The plan of attempt 1 or 2 restarts as the next attempt; that of attempt 3 names none and restarts as
      attempt 3. */
  lemma IdleRestart(leg: Leg, next: Leg, attempt: nat, retries: nat)
    requires 1 <= attempt <= 3 && leg.plan == IdlePlan(attempt, retries)
    requires next.policy == IdlePolicy(Min(attempt + 1, 3))
    ensures RestartedFrom(leg, next)
  {
    IdleGranted(attempt);
    hide C.Grants;
    assert Carries(IdleRequest(attempt), leg.plan);
  }

  lemma IdleSession(target: RT.Target, scope: FD.Scope, attempt: nat, retries: nat)
    requires target.key != "" && 1 <= attempt <= 3 && attempt <= retries
    ensures Session(IdleLeg(target, scope, attempt, retries), Some(retries))
  {
    hide R.Rotate, P.IsPlanOf;
    var quota := if attempt == 1 then None else Some(5);
    IdleRotation(target, quota, scope);
    IdlePlanIsBuilt(attempt, retries);
    var setup := IdleSetup(target, quota, scope);
    assert R.HonoursBudget(setup.engine);
  }

  lemma IdleIsHonest(target: RT.Target, scope: FD.Scope, attempt: nat, retries: nat)
    ensures Honest(IdleLeg(target, scope, attempt, retries))
  {
  }

  /** Attempts 1, 2, 3, 3, 3 and so on, each with five follows left. */
  function IdleLegs(target: RT.Target, scope: FD.Scope, retries: nat, n: nat): seq<Leg> {
    seq(n, k requires 0 <= k < n => IdleLeg(target, scope, Min(k + 1, 3), retries))
  }

  /** As long as the attempts stay within the retries, this is a lineage, and every session of it follows. */
  lemma IdleLineage(target: RT.Target, scope: FD.Scope, retries: nat, n: nat)
    requires target.key != "" && n > 0 && Min(n, 3) <= retries
    ensures var legs := IdleLegs(target, scope, retries, n);
            && |legs| == n && IsLineage(legs, Some(retries))
            && forall k :: 0 <= k < n ==>
                 && legs[k].rotation.Some? && Remaining(legs[k]) == 5
                 && legs[k].rotation.value.quota == (if k == 0 then None else Some(5))
                 && AttemptOf(legs[k]) == Min(k + 1, 3)
  {
    hide Session, RestartedFrom;
    var legs := IdleLegs(target, scope, retries, n);
    forall k | 0 <= k < n ensures Session(legs[k], Some(retries)) {
      IdleSession(target, scope, Min(k + 1, 3), retries);
    }
    forall k | 0 < k < n ensures RestartedFrom(legs[k - 1], legs[k]) {
      IdleRestart(legs[k - 1], legs[k], Min(k, 3), retries);
    }
  }

  /** The assumptions of this file can be met: some lineage resumes Follow, under a bound of five. */
  lemma FollowCanBeResumed(target: RT.Target, scope: FD.Scope)
    requires target.key != ""
    ensures exists legs: seq<Leg> :: IsLineage(legs, Some(2)) && |legs| == 2 && legs[1].rotation.Some?
              && legs[1].rotation.value.quota == Some(5) && Remaining(legs[1]) == 5 && Honest(legs[1])
  {
    IdleIsHonest(target, scope, 2, 2);
    assert IdleLegs(target, scope, 2, 2)[1] == IdleLeg(target, scope, 2, 2);
    hide IsLineage, IdleLegs, Honest, IdleLeg;
    IdleLineage(target, scope, 2, 2);
  }

  ghost predicate LineagesWithin(maxRetries: Option<int>, bound: nat) {
    forall legs: seq<Leg> :: IsLineage(legs, maxRetries) ==> |legs| <= bound
  }

  /** With three retries or more there are lineages of every length: from the third attempt on, a plan allows a
      restart without naming an attempt, and a session restarts as itself. */
  lemma LineagesOfEveryLength(maxRetries: int, n: nat)
    requires maxRetries > P.MAX_RETRIES_DEFAULT && n > 0
    ensures exists legs: seq<Leg> :: IsLineage(legs, Some(maxRetries)) && |legs| == n
              && forall k :: 2 <= k < n ==> AttemptOf(legs[k]) == 3
  {
    hide IsLineage, IdleLegs;
    var target := RT.Target("", "a", 0, "a");
    var scope := FD.Scope("", "", "", "", "", "");
    IdleLineage(target, scope, maxRetries, n);
  }

  /** Lineages are bounded at all exactly when at most two retries are configured, and then by one attempt more
      than there are retries. */
  lemma LineagesBoundedExactly(maxRetries: Option<int>)
    ensures (exists bound: nat :: LineagesWithin(maxRetries, bound))
       <==> maxRetries.GetOr(P.MAX_RETRIES_DEFAULT) <= P.MAX_RETRIES_DEFAULT
    ensures maxRetries.GetOr(P.MAX_RETRIES_DEFAULT) <= P.MAX_RETRIES_DEFAULT ==>
              LineagesWithin(maxRetries, Max(0, maxRetries.GetOr(P.MAX_RETRIES_DEFAULT)) + 1)
  {
    hide IsLineage;
    var bound: nat := Max(0, maxRetries.GetOr(P.MAX_RETRIES_DEFAULT)) + 1;
    if maxRetries.GetOr(P.MAX_RETRIES_DEFAULT) <= P.MAX_RETRIES_DEFAULT {
      forall legs: seq<Leg> | IsLineage(legs, maxRetries) ensures |legs| <= bound {
        LineageIsBounded(legs, maxRetries);
      }
      assert LineagesWithin(maxRetries, bound);
    } else {
      forall b: nat ensures !LineagesWithin(maxRetries, b) {
        LineagesOfEveryLength(maxRetries.value, b + 1);
      }
    }
  }
}
