/** The Follow target rotation: one loop over targets with budgets, key sets and terminal branches. */
module Rotation {
  import opened Options
  import Text
  import FD = FollowDecision
  import RT = RotationTargets

  type Target = RT.Target

  const MAX_TARGETS_DEFAULT := 3
  const MAX_TARGETS_UPPER := 10
  const MAX_FOLLOWS_DEFAULT := 2
  const MAX_FOLLOWS_UPPER := 50
  const MAX_SAFE_PARTIAL_FAILURES := 2

  const CAP_REACHED := "global_follow_cap_reached"
  const SAFE_PARTIAL_REASONS := {"see_more_click_exhausted_after_bounded_recovery"}
  const NO_ROTATION_REASONS := {"visible_window_exhausted_scroll_failed", "pre_scroll_continuation_ambiguous"}
  const SEE_MORE_BLOCKING := {"see_more_available", "see_more_clicking", "see_more_expansion_wait",
                              "see_more_failed_recoverable"}
  const EVALUATION_BARRIERS := {"evaluation_barrier_reached", "follow60_evaluation_barrier_reached"}
  const TIME_STOPS := {FD.TIME_HANDOFF, "scheduled_business_deadline"}
  const LOCAL_FAILURE_OUTCOMES := {"target_unavailable_retryable", "target_open_failed_retryable",
                                   "target_open_failed_terminal", "target_recovery_failed",
                                   "target_skipped_current_attempt"}
  const EXHAUSTION_TOKENS: seq<string> := ["followers_engine_sparse_exhausted", "no_candidates_after_sparse_scrolls",
    "list_progressive_exploration_exhausted", "no_followable_candidates_bounded_exploration",
    "no_followable_candidates_after_bounded_exploration", "bounded_exploration_exhausted",
    "followers_suggestions_boundary", "suggestions_boundary_confirmed"]

  // -----------------------------------------------------------------------
  // The engine

  /** What the engine is asked to do on one target. */
  datatype Call = Call(target: Target, budget: int, sessionCap: Option<int>, fromCurrentList: bool)

  /** What one engine session did (`made` follows) and what it reported. Absent strings are "". */
  datatype Reply = Reply(
    made: nat,
    exitCode: int,
    completed: Option<int>,
    stopReason: string,
    sessionOutcome: string,
    globalCompleted: Option<int>,
    followsDone: Option<int>,
    currentCount: Option<int>,
    globalGoal: Option<int>,
    ownGoal: Option<int>,
    seeMoreStatus: string,
    scrollBoundarySafe: bool,
    surfaceAmbiguous: bool,
    targetOutcome: string,
    targetReason: string,
    firstCausalReason: string,
    localFailure: bool,
    safeToSkip: bool,
    targetCompleted: bool,
    decision: Option<FD.Decision>,
    signals: FD.Signals)

  /** The engine's answer to the call made for the target at a position of the list. */
  type Engine = (nat, Call) -> Reply

  ghost predicate HonoursBudget(engine: Engine) {
    forall i, c :: engine(i, c).made <= Max(0, c.budget)
  }

  ghost predicate ReportsEveryFollow(engine: Engine) {
    forall i, c :: engine(i, c).made <= engine(i, c).completed.GetOr(0)
  }

  function Or(x: string, y: string): string {
    RT.Or(x, y)
  }

  /** `a or b` on optional integers, where zero counts as absent. */
  function OrInt(a: Option<int>, b: Option<int>): Option<int> {
    if a.Some? && a.value != 0 then a else b
  }

  function StopText(r: Reply): string {
    Or(r.stopReason, r.sessionOutcome)
  }

  // -----------------------------------------------------------------------
  // Reading one reply

  /** The text that `is_follow_target_exhaustion_outcome` searches. */
  function ExhaustionText(r: Reply): string {
    var outcome := Text.Lower(Text.Strip(r.sessionOutcome));
    var reason := Text.Lower(Text.Strip(r.stopReason));
    Text.Join(NonEmpty([outcome, reason, outcome, reason]))
  }

  function NonEmpty(parts: seq<string>): (r: seq<string>)
    ensures forall p :: p in r <==> p in parts && p != ""
  {
    if parts == [] then []
    else if parts[0] == "" then NonEmpty(parts[1..])
    else [parts[0]] + NonEmpty(parts[1..])
  }

  predicate Exhausted(r: Reply) {
    r.exitCode == 66 || Text.ContainsAny(ExhaustionText(r), EXHAUSTION_TOKENS)
  }

  /** `is_follow_target_budget_reached` */
  predicate BudgetReached(r: Reply, budget: int) {
    r.completed.GetOr(0) >= Max(1, budget)
  }

  /** `is_follow_target_safe_partial_rotation` */
  predicate BoundarySafe(r: Reply) {
    var reason := Text.Strip(StopText(r));
    if reason == "see_more_click_exhausted_after_bounded_recovery" then
      r.exitCode == 0 && r.seeMoreStatus == "see_more_failed_terminal"
    else
      r.exitCode == 0 && reason in SAFE_PARTIAL_REASONS && r.scrollBoundarySafe && !r.surfaceAmbiguous
  }

  /** `_follow_target_rotation_contract`: no rotation while the target owns an unfinished See More. */
  predicate SeeMoreSettled(r: Reply) {
    r.seeMoreStatus !in SEE_MORE_BLOCKING
  }

  predicate IsLocalFailure(r: Reply) {
    r.localFailure || Text.Strip(Or(r.targetOutcome, r.sessionOutcome)) in LOCAL_FAILURE_OUTCOMES
  }

  predicate SafeToSkip(r: Reply) {
    IsLocalFailure(r) && r.safeToSkip && !r.targetCompleted && r.completed.GetOr(0) == 0
  }

  /** `first_causal_reason` of `_follow_target_local_failure_contract`. */
  function LocalReason(r: Reply): string {
    Or(Text.Strip(Or(r.firstCausalReason, Or(r.stopReason, Or(r.targetReason,
         if r.exitCode != 0 then "exit_code" else "")))),
       "target_local_outcome_unknown")
  }

  /** The envelope after `_finalize_follow_time_handoff_termination_decision`: the runner's own, or
      one built for the exact time handoff when no global blocker is present. */
  function FinalDecision(r: Reply, scope: FD.Scope, total: int): Option<FD.Decision> {
    if r.decision.Some? then r.decision
    else if r.exitCode == 97 && Text.Strip(StopText(r)) == FD.TIME_HANDOFF && FD.GlobalBlockers(r.signals) == []
    then Some(FD.TimeHandoffDecision(total, scope, true))
    else None
  }

  /** The exits that only a valid envelope may explain. */
  predicate Authoritative(exitCode: int, decision: Option<FD.Decision>) {
    exitCode == 53 || (exitCode == 97 && decision.Some?)
  }

  predicate Accepted(exitCode: int, decision: Option<FD.Decision>, scope: FD.Scope) {
    Authoritative(exitCode, decision) && FD.Validate(decision, exitCode, scope).Valid?
  }

  // -----------------------------------------------------------------------
  // Deciding what one reply means for the loop

  /** The branch that a reply takes, in the order in which the loop tests for them. */
  datatype Branch =
    | AcceptedEnvelope | InvalidEnvelope | EvaluationBarrier | CapReported | TimeStop
    | TargetBudget | TargetLocalFailure | NoRotation | SafePartial | Unexplained | TargetExhausted

  function BranchOf(r: Reply, decision: Option<FD.Decision>, scope: FD.Scope, budget: int): Branch {
    if Accepted(r.exitCode, decision, scope) then AcceptedEnvelope
    else if Authoritative(r.exitCode, decision) then InvalidEnvelope
    else if StopText(r) in EVALUATION_BARRIERS then EvaluationBarrier
    else if StopText(r) == CAP_REACHED then CapReported
    else if StopText(r) in TIME_STOPS then TimeStop
    else if BudgetReached(r, budget) && !Exhausted(r) then TargetBudget
    else if Exhausted(r) then TargetExhausted
    else if IsLocalFailure(r) then TargetLocalFailure
    else if StopText(r) in NO_ROTATION_REASONS then NoRotation
    else if StopText(r) in SAFE_PARTIAL_REASONS then SafePartial
    else Unexplained
  }

  /** What follows an attempt: the next target, or the end of the rotation. A `sealed` end keeps the
      Follow outcome it carries: the merge after the loop is skipped. */
  datatype Halt = Halt(reason: string, exitCode: int, sealed: bool)

  datatype Verdict = Go | Stop(halt: Halt)

  predicate CapMet(goal: Option<int>, total: int) {
    goal.Some? && total >= goal.value
  }

  /** `partials`: the safe partial failures so far, this one included.
      `more`: a target that the branch may rotate to is left in the bounded list.
      `truncated`: the bounded list leaves targets out. */
  function VerdictOf(branch: Branch, r: Reply, decision: Option<FD.Decision>, capMet: bool,
                     partials: nat, more: bool, truncated: bool, fastOk: bool): Verdict
  {
    match branch
    case AcceptedEnvelope =>
      Stop(Halt(Or(if decision.Some? then decision.value.firstCausalReason else "",
                   Or(r.firstCausalReason, Or(r.stopReason,
                      if r.exitCode == 97 then FD.TIME_HANDOFF
                      else "follow60_candidate_local_post_follow_recovery_required"))),
                r.exitCode, true))
    case InvalidEnvelope => Stop(Halt("follow_termination_decision_invalid", 96, true))
    case EvaluationBarrier => Stop(Halt("follow60_evaluation_barrier_reached", 0, false))
    case CapReported => Stop(Halt(CAP_REACHED, 0, false))
    case TimeStop => Stop(Halt(StopText(r), 97, false))
    case TargetBudget =>
      if capMet then Stop(Halt(CAP_REACHED, 0, false))
      else if !more then Stop(Halt("target_budget_reached", 0, false))
      else if !SeeMoreSettled(r) then Stop(Halt("see_more_pending_rotation_forbidden", r.exitCode, false))
      else Go
    case TargetLocalFailure =>
      if SafeToSkip(r) && more then Go
      else if SafeToSkip(r) then Stop(Halt("all_targets_temporarily_unavailable", r.exitCode, false))
      else Stop(Halt(LocalReason(r), r.exitCode, false))
    case NoRotation => Stop(Halt(StopText(r), r.exitCode, false))
    case SafePartial =>
      if partials >= MAX_SAFE_PARTIAL_FAILURES then
        Stop(Halt("safe_partial_ct_failure_limit_reached", r.exitCode, false))
      else if !more then Stop(Halt(StopText(r), r.exitCode, false))
      else if !SeeMoreSettled(r) then Stop(Halt("see_more_pending_rotation_forbidden", r.exitCode, false))
      else if !BoundarySafe(r) && !fastOk then
        Stop(Halt("partial_ct_rotation_revalidation_failed", r.exitCode, false))
      else Go
    case Unexplained =>
      Stop(Halt(Or(r.firstCausalReason, Or(r.stopReason, Or(r.sessionOutcome, "exit_code"))), r.exitCode, false))
    case TargetExhausted =>
      if more then
        if SeeMoreSettled(r) then Go
        else Stop(Halt("see_more_pending_rotation_forbidden", r.exitCode, false))
      else if truncated then Stop(Halt("max_targets_per_run_reached", 0, false))
      else Stop(Halt("all_targets_exhausted", 0, false))
  }

  // -----------------------------------------------------------------------
  // The loop's ledger

  function NewTotal(total: int, r: Reply): int {
    var sum := total + r.completed.GetOr(0);
    if StopText(r) == CAP_REACHED then
      var reported := OrInt(r.globalCompleted, OrInt(r.followsDone, r.currentCount));
      if reported.Some? then Max(sum, reported.value) else sum
    else sum
  }

  function NewGoal(goal: Option<int>, r: Reply): Option<int> {
    if r.globalGoal.None? then goal
    else if goal.Some? then Some(Min(goal.value, r.globalGoal.value))
    else r.globalGoal
  }

  /** `_resolve_max_follow_targets_per_run` */
  function MaxTargets(listed: nat, configured: Option<int>): (m: int)
    ensures 1 <= m <= MAX_TARGETS_UPPER
  {
    Max(1, Min(configured.GetOr(MAX_TARGETS_DEFAULT), Min(Max(1, listed), MAX_TARGETS_UPPER)))
  }

  /** `_resolve_max_follows_per_target_per_run` */
  function MaxFollowsPerTarget(configured: Option<int>): (m: int)
    ensures 1 <= m <= MAX_FOLLOWS_UPPER
  {
    Max(1, Min(configured.GetOr(MAX_FOLLOWS_DEFAULT), MAX_FOLLOWS_UPPER))
  }

  /** Everything one rotation is given. `fast(i)` says that a fast rotation runner is installed and
      that its call after the target at position `i` succeeds. */
  datatype Setup = Setup(
    listed: seq<Target>,
    maxTargets: Option<int>,
    maxFollowsPerTarget: Option<int>,
    quota: Option<int>,
    scope: FD.Scope,
    engine: Engine,
    fast: nat -> bool)
  {
    function Targets(): seq<Target> {
      listed[..Min(MaxTargets(|listed|, maxTargets), |listed|)]
    }

    function Cap(): int {
      MaxFollowsPerTarget(maxFollowsPerTarget)
    }

    predicate Truncated() {
      |listed| > |Targets()|
    }

    function InitialGoal(): Option<int> {
      if quota.Some? && quota.value > 0 then Some(quota.value) else None
    }
  }

  /** One engine session of the rotation and what the loop made of it. `fastProved`: the fast
      rotation that followed it has put the device on the next target's followers list. */
  datatype Attempt = Attempt(
    position: nat,
    call: Call,
    reply: Reply,
    decision: Option<FD.Decision>,
    branch: Branch,
    total: int,
    goal: Option<int>,
    fastProved: bool)

  datatype Loop = Loop(
    exhausted: set<string>,
    budgetReached: set<string>,
    excluded: set<string>,
    partials: nat,
    attempts: seq<Attempt>,
    total: int,
    goal: Option<int>,
    proven: Option<string>)

  function Start(s: Setup): Loop {
    Loop({}, {}, {}, 0, [], 0, s.InitialGoal(), None)
  }

  function Left(s: Setup, l: Loop): int {
    if l.goal.Some? then Max(0, l.goal.value - l.total) else s.Cap()
  }

  predicate Skipped(l: Loop, key: string) {
    key == "" || key in l.exhausted || key in l.budgetReached || key in l.excluded
  }

  /** The keys that a branch's search for the next target passes over. */
  function PassedOver(l: Loop, branch: Branch): set<string> {
    match branch
    case TargetExhausted => l.exhausted
    case TargetLocalFailure => l.exhausted + l.budgetReached + l.excluded
    case _ => l.exhausted + l.budgetReached
  }

  /** The first of `ts` whose key is not in `keys`. */
  function FirstOutside(ts: seq<Target>, keys: set<string>): (r: Option<Target>)
    ensures r.None? <==> forall t :: t in ts ==> t.key in keys
    ensures ts != [] && ts[0].key !in keys ==> r == Some(ts[0])
  {
    if ts == [] then None
    else if ts[0].key !in keys then Some(ts[0])
    else
      var r := FirstOutside(ts[1..], keys);
      assert forall t :: t in ts <==> t == ts[0] || t in ts[1..];
      r
  }

  function CallFor(s: Setup, l: Loop, i: nat): Call
    requires i < |s.Targets()|
  {
    var target := s.Targets()[i];
    Call(target, Min(s.Cap(), Left(s, l)), l.goal, l.proven == Some(target.key))
  }

  /** The ledger and the key sets after the engine's reply at position `i`. */
  function Recorded(s: Setup, l: Loop, i: nat): Loop
    requires i < |s.Targets()|
  {
    var call := CallFor(s, l, i);
    var r := s.engine(i, call);
    var total, goal := NewTotal(l.total, r), NewGoal(l.goal, r);
    var decision := FinalDecision(r, s.scope, l.total + r.completed.GetOr(0));
    var branch := BranchOf(r, decision, s.scope, call.budget);
    var key := call.target.key;
    Loop(if branch.TargetExhausted? then l.exhausted + {key} else l.exhausted,
         if branch.TargetBudget? then l.budgetReached + {key} else l.budgetReached,
         if branch.TargetLocalFailure? then l.excluded + {key} else l.excluded,
         if branch.SafePartial? then l.partials + 1 else l.partials,
         l.attempts + [Attempt(i, call, r, decision, branch, total, goal, false)],
         total, goal,
         if call.fromCurrentList then None else l.proven)
  }

  function Last(l: Loop): Attempt
    requires l.attempts != []
  {
    l.attempts[|l.attempts| - 1]
  }

  /** The next target after the attempt that `l` has just recorded at position `i`. */
  function Next(s: Setup, l: Loop, i: nat): Option<Target>
    requires i < |s.Targets()| && l.attempts != []
  {
    FirstOutside(s.Targets()[i + 1..], PassedOver(l, Last(l).branch))
  }

  function Judged(s: Setup, l: Loop, i: nat): Verdict
    requires i < |s.Targets()| && l.attempts != []
  {
    var a := Last(l);
    VerdictOf(a.branch, a.reply, a.decision, CapMet(a.goal, a.total), l.partials,
              Next(s, l, i).Some?, s.Truncated(), s.fast(i))
  }

  predicate RotatesFast(branch: Branch) {
    branch.TargetBudget? || branch.SafePartial?
  }

  /** Moving on: a successful fast rotation proves the followers list of the next target. */
  function MovedOn(s: Setup, l: Loop, i: nat): Loop
    requires i < |s.Targets()| && l.attempts != []
  {
    if RotatesFast(Last(l).branch) && s.fast(i) && Next(s, l, i).Some? then
      l.(attempts := l.attempts[|l.attempts| - 1 := Last(l).(fastProved := true)],
         proven := Some(Next(s, l, i).value.key))
    else l
  }

  /** How the loop ended: in a terminal branch, or by running past its last target. */
  datatype Ending = Terminal(halt: Halt) | RanOff

  /** The loop from position `i` on. */
  function Run(s: Setup, l: Loop, i: nat): (Loop, Ending)
    requires i <= |s.Targets()|
    decreases |s.Targets()| - i
  {
    if i == |s.Targets()| then (l, RanOff)
    else if Skipped(l, s.Targets()[i].key) then Run(s, l, i + 1)
    else if Left(s, l) <= 0 then (l, Terminal(Halt(CAP_REACHED, 0, false)))
    else
      var l' := Recorded(s, l, i);
      var verdict := Judged(s, l', i);
      if verdict.Stop? then (l', Terminal(verdict.halt))
      else Run(s, MovedOn(s, l', i), i + 1)
  }

  datatype Outcome = Outcome(
    exitCode: int,
    reason: string,
    sealed: bool,
    attempts: seq<Attempt>,
    exhausted: set<string>,
    total: int,
    goal: Option<int>,
    allExhausted: bool)

  /** The result that the code after the loop assembles. */
  function Assemble(l: Loop, ending: Ending): Outcome {
    if l.attempts == [] then
      Outcome(0, "all_targets_exhausted", false, [], l.exhausted, l.total, l.goal, true)
    else match ending
      case Terminal(h) =>
        Outcome(h.exitCode, h.reason, h.sealed, l.attempts, l.exhausted, l.total, l.goal,
                Last(l).branch.TargetExhausted? && h.reason == "all_targets_exhausted")
      case RanOff =>
        Outcome(Last(l).reply.exitCode, "no_follow_targets", false, l.attempts, l.exhausted, l.total, l.goal, false)
  }

  function Rotate(s: Setup): Outcome {
    var (l, ending) := Run(s, Start(s), 0);
    Assemble(l, ending)
  }

  /** Past the last target the loop runs off; before it, there are three ways on. */
  lemma RunStep(s: Setup, l: Loop, i: nat)
    requires i <= |s.Targets()|
    ensures i == |s.Targets()| ==> Run(s, l, i) == (l, RanOff)
    ensures i < |s.Targets()| && Skipped(l, s.Targets()[i].key) ==> Run(s, l, i) == Run(s, l, i + 1)
    ensures i < |s.Targets()| && !Skipped(l, s.Targets()[i].key) && Left(s, l) <= 0 ==>
              Run(s, l, i) == (l, Terminal(Halt(CAP_REACHED, 0, false)))
    ensures i < |s.Targets()| && !Skipped(l, s.Targets()[i].key) && Left(s, l) > 0 ==>
              var l' := Recorded(s, l, i);
              Run(s, l, i) == match Judged(s, l', i)
                              case Stop(halt) => (l', Terminal(halt))
                              case Go => Run(s, MovedOn(s, l', i), i + 1)
  {
    hide BranchOf, VerdictOf, FinalDecision, NewTotal, NewGoal, MaxTargets, MaxFollowsPerTarget, FirstOutside;
  }

  /** `_run_follow_target_rotation`: the loop itself, with its key sets, counters and `attempts`. */
  method RunFollowTargetRotation(s: Setup) returns (out: Outcome)
    ensures out == Rotate(s)
  {
    hide Run, BranchOf, VerdictOf, FinalDecision, NewTotal, NewGoal, MaxTargets, MaxFollowsPerTarget, FirstOutside;
    var targets, cap := s.Targets(), s.Cap();
    var exhaustedKeys: set<string>, budgetReachedKeys: set<string>, excludedKeys: set<string> := {}, {}, {};
    var attempts: seq<Attempt>, total, goal := [], 0, s.InitialGoal();
    var partials: nat, proven: Option<string>, ending := 0, None, RanOff;
    ghost var whole := Run(s, Start(s), 0);
    var i: nat := 0;
    while i < |targets|
      invariant i <= |targets| && ending.RanOff?
      invariant Run(s, Loop(exhaustedKeys, budgetReachedKeys, excludedKeys, partials, attempts, total, goal, proven), i)
                == whole
    {
      var target := targets[i];
      ghost var before := Loop(exhaustedKeys, budgetReachedKeys, excludedKeys, partials, attempts, total, goal, proven);
      RunStep(s, before, i);
      if target.key == "" || target.key in exhaustedKeys || target.key in budgetReachedKeys
         || target.key in excludedKeys {
        i := i + 1;
        continue;
      }
      var left := if goal.Some? then Max(0, goal.value - total) else cap;
      if left <= 0 {
        ending := Terminal(Halt(CAP_REACHED, 0, false));
        break;
      }
      var call := Call(target, Min(cap, left), goal, proven == Some(target.key));
      if call.fromCurrentList {
        proven := None;
      }
      var reply := s.engine(i, call);
      var decision := FinalDecision(reply, s.scope, total + reply.completed.GetOr(0));
      total := NewTotal(total, reply);
      goal := NewGoal(goal, reply);
      var branch := BranchOf(reply, decision, s.scope, call.budget);
      attempts := attempts + [Attempt(i, call, reply, decision, branch, total, goal, false)];
      if branch.TargetBudget? {
        budgetReachedKeys := budgetReachedKeys + {target.key};
      } else if branch.TargetLocalFailure? {
        excludedKeys := excludedKeys + {target.key};
      } else if branch.SafePartial? {
        partials := partials + 1;
      } else if branch.TargetExhausted? {
        exhaustedKeys := exhaustedKeys + {target.key};
      }
      ghost var after := Loop(exhaustedKeys, budgetReachedKeys, excludedKeys, partials, attempts, total, goal, proven);
      assert after == Recorded(s, before, i) by {
        assert call == CallFor(s, before, i);
      }
      var passedOver := if branch.TargetExhausted? then exhaustedKeys
                        else if branch.TargetLocalFailure? then exhaustedKeys + budgetReachedKeys + excludedKeys
                        else exhaustedKeys + budgetReachedKeys;
      var next := FirstOutside(targets[i + 1..], passedOver);
      assert Last(after) == attempts[|attempts| - 1] && next == Next(s, after, i);
      var verdict := VerdictOf(branch, reply, decision, CapMet(goal, total), partials, next.Some?, s.Truncated(),
          s.fast(i));
      assert verdict == Judged(s, after, i);
      if verdict.Stop? {
        ending := Terminal(verdict.halt);
        break;
      }
      if RotatesFast(branch) && s.fast(i) && next.Some? {
        proven := Some(next.value.key);
        attempts := attempts[|attempts| - 1 := attempts[|attempts| - 1].(fastProved := true)];
      }
      i := i + 1;
    }
    var end := Loop(exhaustedKeys, budgetReachedKeys, excludedKeys, partials, attempts, total, goal, proven);
    RunStep(s, end, i);
    out := Assemble(end, ending);
  }
}
