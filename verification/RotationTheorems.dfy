/** What holds of every run of the Follow target rotation. */
module RotationTheorems {
  import opened Options
  import Text
  import FD = FollowDecision
  import RT = RotationTargets
  import opened Rotation
  import opened Replies

  // -----------------------------------------------------------------------
  // Accounting, for any list of targets

  function TotalBefore(attempts: seq<Attempt>, k: nat): int
    requires k <= |attempts|
  {
    if k == 0 then 0 else attempts[k - 1].total
  }

  function GoalBefore(s: Setup, attempts: seq<Attempt>, k: nat): Option<int>
    requires k <= |attempts|
  {
    if k == 0 then s.InitialGoal() else attempts[k - 1].goal
  }

  /** Attempt `k` was given what the earlier attempts left, and its reply was booked in full. */
  ghost predicate Accounted(s: Setup, attempts: seq<Attempt>, k: nat)
    requires k < |attempts|
  {
    var a, total, goal := attempts[k], TotalBefore(attempts, k), GoalBefore(s, attempts, k);
    var left := if goal.Some? then goal.value - total else s.Cap();
    && a.position < |s.Targets()|
    && a.call.target == s.Targets()[a.position]
    && a.reply == s.engine(a.position, a.call)
    && left > 0 && a.call.budget == Min(s.Cap(), left) && a.call.sessionCap == goal
    && a.total == NewTotal(total, a.reply)
    && a.goal == NewGoal(goal, a.reply)
    && a.decision == FinalDecision(a.reply, s.scope, total + a.reply.completed.GetOr(0))
    && a.branch == BranchOf(a.reply, a.decision, s.scope, a.call.budget)
  }

  predicate Rotatable(branch: Branch) {
    branch.TargetBudget? || branch.TargetLocalFailure? || branch.SafePartial? || branch.TargetExhausted?
  }

  /** The books of a loop whose first `open` attempts have been followed by a move. */
  ghost predicate Books(s: Setup, l: Loop, open: nat) {
    && (forall k :: 0 <= k < |l.attempts| ==> Accounted(s, l.attempts, k))
    && l.total == TotalBefore(l.attempts, |l.attempts|)
    && l.goal == GoalBefore(s, l.attempts, |l.attempts|)
    && (forall k :: 0 <= k < open && k < |l.attempts| ==> Rotatable(l.attempts[k].branch))
  }

  lemma RecordedBooks(s: Setup, l: Loop, i: nat)
    requires i < |s.Targets()| && Books(s, l, |l.attempts|) && Left(s, l) > 0
    ensures Books(s, Recorded(s, l, i), |l.attempts|)
  {
    hide BranchOf, NewTotal, NewGoal, FinalDecision;
    var l' := Recorded(s, l, i);
    forall k | 0 <= k < |l'.attempts| ensures Accounted(s, l'.attempts, k) {
      if k < |l.attempts| {
        assert Accounted(s, l.attempts, k);
      }
    }
  }

  lemma MovedOnBooks(s: Setup, l: Loop, i: nat, open: nat)
    requires i < |s.Targets()| && l.attempts != [] && Books(s, l, open)
    ensures Books(s, MovedOn(s, l, i), open)
    ensures |MovedOn(s, l, i).attempts| == |l.attempts|
    ensures Last(MovedOn(s, l, i)).branch == Last(l).branch
  {
    hide BranchOf, NewTotal, NewGoal, FinalDecision;
    var l' := MovedOn(s, l, i);
    forall k | 0 <= k < |l'.attempts| ensures Accounted(s, l'.attempts, k) {
      assert Accounted(s, l.attempts, k);
    }
  }

  lemma BooksReopened(s: Setup, l: Loop, open: nat)
    requires Books(s, l, open)
    ensures forall fewer: nat :: fewer <= open ==> Books(s, l, fewer)
    ensures l.attempts != [] && open == |l.attempts| - 1 && Rotatable(Last(l).branch) ==> Books(s, l, |l.attempts|)
  {
    hide Accounted;
  }

  lemma {:induction false} RunBooks(s: Setup, l: Loop, i: nat)
    requires i <= |s.Targets()| && Books(s, l, |l.attempts|)
    ensures var end := Run(s, l, i).0;
            Books(s, end, if end.attempts == [] then 0 else |end.attempts| - 1)
    decreases |s.Targets()| - i
  {
    hide Recorded, MovedOn, Run, Books, Left, Skipped, Judged, MaxTargets, MaxFollowsPerTarget;
    RunStep(s, l, i);
    BooksReopened(s, l, |l.attempts|);
    if i == |s.Targets()| {
    } else if Skipped(l, s.Targets()[i].key) {
      RunBooks(s, l, i + 1);
    } else if Left(s, l) > 0 {
      var l' := Recorded(s, l, i);
      RecordedBooks(s, l, i);
      RecordedAdds(s, l, i);
      if Judged(s, l', i).Go? {
        MovedOnBooks(s, l', i, |l.attempts|);
        BooksReopened(s, MovedOn(s, l', i), |l.attempts|);
        RunBooks(s, MovedOn(s, l', i), i + 1);
      }
    }
  }

  lemma RecordedAdds(s: Setup, l: Loop, i: nat)
    requires i < |s.Targets()|
    ensures |Recorded(s, l, i).attempts| == |l.attempts| + 1
    ensures Judged(s, Recorded(s, l, i), i).Go? ==> Rotatable(Last(Recorded(s, l, i)).branch)
  {
    hide BranchOf, NewTotal, NewGoal, FinalDecision;
  }

  /** The follows that the engine made in the first `k` attempts. */
  function Made(attempts: seq<Attempt>, k: nat): nat
    requires k <= |attempts|
  {
    if k == 0 then 0 else Made(attempts, k - 1) + attempts[k - 1].reply.made
  }

  /** The per-attempt counts of the first `k` attempts. */
  function Counted(attempts: seq<Attempt>, k: nat): int
    requires k <= |attempts|
  {
    if k == 0 then 0 else Counted(attempts, k - 1) + attempts[k - 1].reply.completed.GetOr(0)
  }

  ghost predicate AllAccounted(s: Setup, attempts: seq<Attempt>) {
    forall k :: 0 <= k < |attempts| ==> Accounted(s, attempts, k)
  }

  /** An authorized goal stays a goal and only shrinks. */
  lemma {:induction false} GoalOnlyShrinks(s: Setup, attempts: seq<Attempt>, k: nat)
    requires k <= |attempts| && AllAccounted(s, attempts) && s.InitialGoal().Some?
    ensures GoalBefore(s, attempts, k).Some? && GoalBefore(s, attempts, k).value <= s.InitialGoal().value
  {
    hide BranchOf, FinalDecision, NewTotal;
    if k > 0 {
      GoalOnlyShrinks(s, attempts, k - 1);
      assert Accounted(s, attempts, k - 1);
    }
  }

  lemma RotateBooks(s: Setup)
    ensures var (end, ending) := Run(s, Start(s), 0);
            && Rotate(s).attempts == end.attempts
            && Books(s, end, if end.attempts == [] then 0 else |end.attempts| - 1)
            && (end.attempts != [] ==> Rotate(s).total == end.total && Rotate(s).goal == end.goal)
  {
    hide Run, BranchOf, Accounted;
    RunBooks(s, Start(s), 0);
  }

  /** The follows of the first `k` attempts that their counts leave out. */
  function Unreported(attempts: seq<Attempt>, k: nat): nat
    requires k <= |attempts|
  {
    if k == 0 then 0
    else Unreported(attempts, k - 1) + Max(0, attempts[k - 1].reply.made - attempts[k - 1].reply.completed.GetOr(0))
  }

  lemma {:induction false} MadeIsBookedOrUnreported(s: Setup, attempts: seq<Attempt>, k: nat)
    requires k <= |attempts| && AllAccounted(s, attempts)
    ensures Made(attempts, k) <= TotalBefore(attempts, k) + Unreported(attempts, k)
  {
    hide BranchOf, FinalDecision;
    if k > 0 {
      MadeIsBookedOrUnreported(s, attempts, k - 1);
      assert Accounted(s, attempts, k - 1);
    }
  }

  lemma {:induction false} HonestCounts(s: Setup, attempts: seq<Attempt>, k: nat)
    requires k <= |attempts| && AllAccounted(s, attempts) && ReportsEveryFollow(s.engine)
    ensures Unreported(attempts, k) == 0
  {
    hide BranchOf, FinalDecision, NewTotal, NewGoal;
    if k > 0 {
      HonestCounts(s, attempts, k - 1);
      assert Accounted(s, attempts, k - 1);
    }
  }

  /** Whatever the engine reports: as long as it honours its budgets, the follows of one rotation exceed the quota
      by no more than the follows that all but its last attempt left out of their counts. */
  lemma RotationBoundUpToUnreported(s: Setup)
    requires HonoursBudget(s.engine) && s.quota.Some? && s.quota.value > 0
    ensures var attempts := Rotate(s).attempts;
            var n := |attempts|;
            Made(attempts, n) <= s.quota.value + if n == 0 then 0 else Unreported(attempts, n - 1)
  {
    hide Run, Rotate, BranchOf, FinalDecision, NewTotal, NewGoal;
    RotateBooks(s);
    var attempts := Rotate(s).attempts;
    var n := |attempts|;
    if n > 0 {
      MadeIsBookedOrUnreported(s, attempts, n - 1);
      GoalOnlyShrinks(s, attempts, n - 1);
      assert Accounted(s, attempts, n - 1);
    }
  }

  /** With an authorized quota, the follows of one rotation never exceed it, whatever goals and
      totals the summaries report. */
  lemma RotationBound(s: Setup)
    requires HonoursBudget(s.engine) && ReportsEveryFollow(s.engine)
    requires s.quota.Some? && s.quota.value > 0
    ensures Made(Rotate(s).attempts, |Rotate(s).attempts|) <= s.quota.value
  {
    hide Run, Rotate, BranchOf, FinalDecision, NewTotal, NewGoal;
    RotationBoundUpToUnreported(s);
    RotateBooks(s);
    if Rotate(s).attempts != [] {
      HonestCounts(s, Rotate(s).attempts, |Rotate(s).attempts| - 1);
    }
  }

  /** Quota or no quota, no attempt makes more follows than the per-target cap. */
  lemma PerTargetBound(s: Setup)
    requires HonoursBudget(s.engine)
    ensures Made(Rotate(s).attempts, |Rotate(s).attempts|) <= |Rotate(s).attempts| * s.Cap()
  {
    hide Run, Rotate, BranchOf, Accounted;
    RotateBooks(s);
    MadeAtMost(s, Rotate(s).attempts, |Rotate(s).attempts|);
  }

  lemma {:induction false} MadeAtMost(s: Setup, attempts: seq<Attempt>, k: nat)
    requires k <= |attempts| && AllAccounted(s, attempts) && HonoursBudget(s.engine)
    ensures Made(attempts, k) <= k * s.Cap()
  {
    hide BranchOf, FinalDecision, NewTotal, NewGoal, MaxFollowsPerTarget, MaxTargets;
    if k > 0 {
      MadeAtMost(s, attempts, k - 1);
      assert Accounted(s, attempts, k - 1);
      assert attempts[k - 1].reply.made <= s.Cap();
      assert (k - 1) * s.Cap() + s.Cap() == k * s.Cap();
    }
  }

  lemma RotatableNotCap(r: Reply, decision: Option<FD.Decision>, scope: FD.Scope, budget: int)
    requires Rotatable(BranchOf(r, decision, scope, budget))
    ensures StopText(r) != CAP_REACHED
  {
    hide Exhausted, IsLocalFailure, Accepted;
  }

  lemma {:induction false} BookedIsCounted(s: Setup, attempts: seq<Attempt>, k: nat)
    requires k <= |attempts| && AllAccounted(s, attempts)
    requires forall j :: 0 <= j < k ==> Rotatable(attempts[j].branch)
    ensures TotalBefore(attempts, k) == Counted(attempts, k)
  {
    hide BranchOf, FinalDecision;
    if k > 0 {
      BookedIsCounted(s, attempts, k - 1);
      assert Accounted(s, attempts, k - 1);
      var a := attempts[k - 1];
      RotatableNotCap(a.reply, a.decision, s.scope, a.call.budget);
    }
  }

  /** The running total is the sum of the per-attempt counts; only a last attempt that reports the
      global cap may lift it, to the larger of that sum and the count it reports. */
  lemma TotalIsCounted(s: Setup)
    requires Rotate(s).attempts != []
    ensures var o := Rotate(s);
            var n := |o.attempts|;
            var last := o.attempts[n - 1].reply;
            var reported := OrInt(last.globalCompleted, OrInt(last.followsDone, last.currentCount));
            o.total == if StopText(last) == CAP_REACHED && reported.Some?
                       then Max(Counted(o.attempts, n), reported.value)
                       else Counted(o.attempts, n)
  {
    hide Run, Rotate, BranchOf, FinalDecision;
    RotateBooks(s);
    var attempts := Rotate(s).attempts;
    BookedIsCounted(s, attempts, |attempts| - 1);
    assert Accounted(s, attempts, |attempts| - 1);
  }

  // -----------------------------------------------------------------------
  // The ledger, in numbers

  /** The bounded list: as many of the first targets as configured, three if nothing is; at least one and at most ten.
      The cap of a target: as configured, two if nothing is; at least one and at most fifty. */
  lemma BoundsExactly(s: Setup)
    ensures var asked := if s.maxTargets.Some? then s.maxTargets.value else 3;
            var most := if asked < 1 then 1 else if asked > 10 then 10 else asked;
            s.Targets() == if |s.listed| <= most then s.listed else s.listed[..most]
    ensures var asked := if s.maxFollowsPerTarget.Some? then s.maxFollowsPerTarget.value else 2;
            s.Cap() == if asked < 1 then 1 else if asked > 50 then 50 else asked
    ensures s.Truncated() <==> |s.Targets()| < |s.listed|
    ensures forall n :: s.InitialGoal() == Some(n) <==> s.quota == Some(n) && n >= 1
  {
    if |s.listed| <= MaxTargets(|s.listed|, s.maxTargets) {
      assert s.listed[..|s.listed|] == s.listed;
    }
  }

  /** The first of three counts that is there and not zero. */
  function FirstCount(a: Option<int>, b: Option<int>, c: Option<int>): Option<int> {
    if a.Some? && a.value != 0 then a else if b.Some? && b.value != 0 then b else c
  }

  /** How a reply is booked: its count is added; one that reports the global cap may lift the total to the count it
      reports; and the goal becomes the smaller of the present one and the one reported. */
  lemma LedgerExactly(total: int, goal: Option<int>, r: Reply)
    ensures var sum, reported := total + CountOf(r), FirstCount(r.globalCompleted, r.followsDone, r.currentCount);
            && (ReasonText(r) != "global_follow_cap_reached" || reported.None? ==> NewTotal(total, r) == sum)
            && (ReasonText(r) == "global_follow_cap_reached" && reported.Some? ==>
                  NewTotal(total, r) == if reported.value > sum then reported.value else sum)
    ensures var next := NewGoal(goal, r);
            && (next.None? <==> goal.None? && r.globalGoal.None?)
            && (next.Some? ==>
                  && (next == goal || next == r.globalGoal)
                  && (goal.Some? ==> next.value <= goal.value)
                  && (r.globalGoal.Some? ==> next.value <= r.globalGoal.value))
  {
  }

  /** The envelope that a reply counts with: its own; for the exact time handoff without a global blocker one that the
      rotation builds; and otherwise none. */
  lemma EnvelopeExactly(r: Reply, scope: FD.Scope, total: int)
    ensures r.decision.Some? ==> FinalDecision(r, scope, total) == r.decision
    ensures r.decision.None? ==>
              FinalDecision(r, scope, total)
              == if r.exitCode == 97 && Text.Strip(ReasonText(r)) == "follow_to_unfollow_time_handoff"
                    && FD.GlobalBlockers(r.signals) == []
                 then Some(FD.TimeHandoffDecision(total, scope, true)) else None
  {
    hide FD.GlobalBlockers, FD.TimeHandoffDecision, Text.Strip;
  }

  /** The targets that an attempt uses up for this run. */
  predicate Spent(branch: Branch) {
    branch.TargetExhausted? || branch.TargetBudget? || branch.TargetLocalFailure?
  }

  /** No attempt is made for an empty key, nor for one that an earlier attempt has used up. */
  ghost predicate KeysFresh(attempts: seq<Attempt>) {
    && (forall k :: 0 <= k < |attempts| ==> attempts[k].call.target.key != "")
    && (forall j, k :: 0 <= j < k < |attempts| && Spent(attempts[j].branch) ==>
          attempts[j].call.target.key != attempts[k].call.target.key)
  }

  ghost predicate KeysNoted(l: Loop) {
    forall k :: 0 <= k < |l.attempts| && Spent(l.attempts[k].branch) ==> Skipped(l, l.attempts[k].call.target.key)
  }

  lemma RecordedKeys(s: Setup, l: Loop, i: nat)
    requires i < |s.Targets()| && KeysFresh(l.attempts) && KeysNoted(l) && !Skipped(l, s.Targets()[i].key)
    ensures KeysFresh(Recorded(s, l, i).attempts) && KeysNoted(Recorded(s, l, i))
  {
    hide BranchOf, NewTotal, NewGoal, FinalDecision, MaxTargets, MaxFollowsPerTarget;
  }

  lemma MovedOnKeys(s: Setup, l: Loop, i: nat)
    requires i < |s.Targets()| && l.attempts != [] && KeysFresh(l.attempts) && KeysNoted(l)
    ensures KeysFresh(MovedOn(s, l, i).attempts) && KeysNoted(MovedOn(s, l, i))
  {
    hide Next, MaxTargets;
  }

  lemma {:induction false} RunKeys(s: Setup, l: Loop, i: nat)
    requires i <= |s.Targets()| && KeysFresh(l.attempts) && KeysNoted(l)
    ensures KeysFresh(Run(s, l, i).0.attempts)
    decreases |s.Targets()| - i
  {
    hide Recorded, MovedOn, Run, Judged, KeysFresh, KeysNoted, Skipped, Left, MaxTargets;
    RunStep(s, l, i);
    if i < |s.Targets()| {
      if Skipped(l, s.Targets()[i].key) {
        RunKeys(s, l, i + 1);
      } else if Left(s, l) > 0 {
        var l' := Recorded(s, l, i);
        RecordedKeys(s, l, i);
        RecordedAdds(s, l, i);
        if Judged(s, l', i).Go? {
          MovedOnKeys(s, l', i);
          RunKeys(s, MovedOn(s, l', i), i + 1);
        }
      }
    }
  }

  /** For any list of targets, with repeated and with empty keys: a target without a key is never attempted, nor one
      whose key an earlier attempt exhausted, brought to its budget, or found failing. */
  lemma NoSpentTargetAgain(s: Setup)
    ensures KeysFresh(Rotate(s).attempts)
  {
    hide Run;
    RunKeys(s, Start(s), 0);
  }

  // -----------------------------------------------------------------------
  // Shape, for a list without repeated keys (the list that the builder returns)

  function SafePartials(attempts: seq<Attempt>, k: nat): nat
    requires k <= |attempts|
  {
    if k == 0 then 0 else SafePartials(attempts, k - 1) + if attempts[k - 1].branch.SafePartial? then 1 else 0
  }

  /** What allows a later target after a reply: no envelope that decides alone, no terminal stop
      reason, and one of four reasons to go on. */
  ghost predicate MayFollow(r: Reply, decision: Option<FD.Decision>, budget: int, capMet: bool,
                            earlierPartials: nat, fastOk: bool)
  {
    && !NeedsEnvelope(r, decision) && !EndsRotation(ReasonText(r))
    && if SaysExhausted(r) then ListSettled(r)
       else if UsesUpBudget(r, budget) then !capMet && ListSettled(r)
       else if FailsLocally(r) then Skippable(r)
       else FirstSafePartial(r, earlierPartials, fastOk)
  }

  /** The one stop reason after which a partial target may be left: once per run, with the See More given up for good,
      or with the next target's list proved by the fast rotation. */
  predicate FirstSafePartial(r: Reply, earlierPartials: nat, fastOk: bool) {
    && ReasonText(r) == "see_more_click_exhausted_after_bounded_recovery"
    && earlierPartials == 0 && ListSettled(r)
    && ((r.exitCode == 0 && r.seeMoreStatus == "see_more_failed_terminal") || fastOk)
  }

  /** A later target may be attempted after attempt `k`. */
  ghost predicate Licensed(s: Setup, attempts: seq<Attempt>, k: nat)
    requires k < |attempts|
  {
    var a := attempts[k];
    var met := a.goal.Some? && a.total >= a.goal.value;
    MayFollow(a.reply, a.decision, a.call.budget, met, SafePartials(attempts, k), s.fast(k))
  }

  ghost predicate Shaped(s: Setup, l: Loop, i: nat) {
    && |l.attempts| == i <= |s.Targets()|
    && (forall k :: 0 <= k < i ==> l.attempts[k].position == k && Accounted(s, l.attempts, k))
    && (forall j :: i <= j < |s.Targets()| ==> !Skipped(l, s.Targets()[j].key))
    && l.partials == SafePartials(l.attempts, i)
    && (l.proven.Some? <==> i > 0 && l.attempts[i - 1].fastProved)
    && (l.proven.Some? ==> i < |s.Targets()| && l.proven.value == s.Targets()[i].key)
    && StartsFromProof(l.attempts)
    && (forall k :: 0 <= k < i ==> Licensed(s, l.attempts, k))
  }

  /** The engine starts from the current followers list exactly when the attempt just before it was
      followed by the fast rotation that proved that list. */
  ghost predicate StartsFromProof(attempts: seq<Attempt>) {
    forall k :: 0 <= k < |attempts| ==> (attempts[k].call.fromCurrentList <==> ProvedBefore(attempts, k))
  }

  predicate ProvedBefore(attempts: seq<Attempt>, k: nat)
    requires k <= |attempts|
  {
    k > 0 && attempts[k - 1].fastProved
  }

  /** Going on takes a licence and a target that is left, and nothing else. */
  lemma GoIffMayFollow(r: Reply, decision: Option<FD.Decision>, scope: FD.Scope, budget: int, capMet: bool,
                       earlier: nat, more: bool, truncated: bool, fastOk: bool)
    ensures var branch := BranchOf(r, decision, scope, budget);
            var partials := earlier + if branch.SafePartial? then 1 else 0;
            VerdictOf(branch, r, decision, capMet, partials, more, truncated, fastOk).Go?
            <==> more && MayFollow(r, decision, budget, capMet, earlier, fastOk)
  {
    ReadingsAgree(r, decision, budget);
    BoundaryExactly(r);
    hide Exhausted, SaysExhausted, BudgetReached, UsesUpBudget, IsLocalFailure, FailsLocally, SeeMoreSettled,
      ListSettled, BoundarySafe, SafeToSkip, Skippable, FD.Validate, Or, LocalReason, StopText, ReasonText, Text.Strip,
      EndsRotation, EVALUATION_BARRIERS, TIME_STOPS, NO_ROTATION_REASONS, SAFE_PARTIAL_REASONS;
  }

  /** Every way to stop: the reason, the exit code, and whether an envelope decided alone. */
  lemma HaltExactly(r: Reply, decision: Option<FD.Decision>, scope: FD.Scope, budget: int, capMet: bool,
                    earlier: nat, more: bool, truncated: bool, fastOk: bool)
    ensures var branch := BranchOf(r, decision, scope, budget);
            var partials := earlier + if branch.SafePartial? then 1 else 0;
            var verdict := VerdictOf(branch, r, decision, capMet, partials, more, truncated, fastOk);
            verdict.Stop? ==>
              verdict.halt == HaltFor(r, decision, FD.Validate(decision, r.exitCode, scope).Valid?, budget, capMet,
                                      earlier, more, truncated)
  {
    BranchExactly(r, decision, scope, budget);
    LocalBranch(r, decision, scope, budget);
    ReadingsAgree(r, decision, budget);
    hide BranchOf, BranchFor, Exhausted, SaysExhausted, BudgetReached, UsesUpBudget, IsLocalFailure, FailsLocally,
      SeeMoreSettled, ListSettled, BoundarySafe, SafeToSkip, Skippable, FD.Validate, StopText, ReasonText, Text.Strip,
      NeedsEnvelope, EndsRotation, EVALUATION_BARRIERS, TIME_STOPS, NO_ROTATION_REASONS, SAFE_PARTIAL_REASONS,
      LocalReason, LocalText;
  }

  lemma LocalBranch(r: Reply, decision: Option<FD.Decision>, scope: FD.Scope, budget: int)
    ensures BranchOf(r, decision, scope, budget).TargetLocalFailure? ==> FailsLocally(r)
  {
    hide Exhausted, BudgetReached, StopText, Accepted, Authoritative;
    ReadingsAgree(r, decision, budget);
    hide IsLocalFailure, FailsLocally;
  }

  /** The branch chain, with its tests in another order and on the fields of the reply alone. */
  lemma BranchExactly(r: Reply, decision: Option<FD.Decision>, scope: FD.Scope, budget: int)
    ensures BranchOf(r, decision, scope, budget)
         == BranchFor(r, decision, FD.Validate(decision, r.exitCode, scope).Valid?, budget)
  {
    ReadingsAgree(r, decision, budget);
    TextsApart(ReasonText(r));
    hide Exhausted, SaysExhausted, BudgetReached, UsesUpBudget, IsLocalFailure, FailsLocally, FD.Validate, StopText,
      ReasonText, EVALUATION_BARRIERS, TIME_STOPS, NO_ROTATION_REASONS, SAFE_PARTIAL_REASONS;
  }

  /** The stop reasons that the loop tests for, by text. */
  lemma TextsApart(reason: string)
    ensures reason in EVALUATION_BARRIERS
       <==> reason == "evaluation_barrier_reached" || reason == "follow60_evaluation_barrier_reached"
    ensures reason in TIME_STOPS
       <==> reason == "follow_to_unfollow_time_handoff" || reason == "scheduled_business_deadline"
    ensures reason in NO_ROTATION_REASONS
       <==> reason == "visible_window_exhausted_scroll_failed" || reason == "pre_scroll_continuation_ambiguous"
    ensures reason in SAFE_PARTIAL_REASONS <==> reason == "see_more_click_exhausted_after_bounded_recovery"
  {
  }

  /** At the one safe partial reason the boundary is safe exactly after a clean exit with the See More given up. */
  lemma BoundaryExactly(r: Reply)
    ensures ReasonText(r) in SAFE_PARTIAL_REASONS <==>
              ReasonText(r) == "see_more_click_exhausted_after_bounded_recovery"
    ensures ReasonText(r) in SAFE_PARTIAL_REASONS ==> ReasonText(r) !in NO_ROTATION_REASONS
    ensures ReasonText(r) == "see_more_click_exhausted_after_bounded_recovery" ==>
              (BoundarySafe(r) <==> r.exitCode == 0 && r.seeMoreStatus == "see_more_failed_terminal")
  {
    var reason := "see_more_click_exhausted_after_bounded_recovery";
    assert "see_more_click_exhausted"[0] == 's';
    assert reason[0] == 's' && reason[|reason| - 1] == 'y';
    assert Text.Strip(reason) == reason;
  }

  lemma SuccessorIsNext(s: Setup, l: Loop, i: nat)
    requires i < |s.Targets()| && RT.DistinctKeys(s.Targets()) && l.attempts != []
    requires forall j :: i < j < |s.Targets()| ==> !Skipped(l, s.Targets()[j].key)
    ensures Next(s, l, i) == if i + 1 < |s.Targets()| then Some(s.Targets()[i + 1]) else None
  {
    var rest := s.Targets()[i + 1..];
    if i + 1 < |s.Targets()| {
      assert rest[0] == s.Targets()[i + 1];
      assert !Skipped(l, rest[0].key);
    }
  }

  lemma {:induction false} SafePartialsOfPrefix(xs: seq<Attempt>, ys: seq<Attempt>, k: nat)
    requires k <= |xs| && k <= |ys|
    requires forall j :: 0 <= j < k ==> xs[j].branch == ys[j].branch
    ensures SafePartials(xs, k) == SafePartials(ys, k)
  {
    if k > 0 {
      SafePartialsOfPrefix(xs, ys, k - 1);
    }
  }

  /** Facts about attempts that do not look at the `fastProved` mark, carried to a longer list. */
  lemma AttemptsCarry(s: Setup, xs: seq<Attempt>, ys: seq<Attempt>, n: nat)
    requires n <= |xs| && n <= |ys|
    requires forall k :: 0 <= k < n ==> xs[k] == ys[k] || xs[k].(fastProved := true) == ys[k]
    ensures forall k :: 0 <= k < n && Accounted(s, xs, k) ==> Accounted(s, ys, k)
    ensures forall k :: 0 <= k < n && Licensed(s, xs, k) ==> Licensed(s, ys, k)
    ensures SafePartials(xs, n) == SafePartials(ys, n)
  {
    hide BranchOf, NewTotal, NewGoal, FinalDecision, MayFollow;
    forall k | 0 <= k < n ensures SafePartials(xs, k) == SafePartials(ys, k) {
      SafePartialsOfPrefix(xs, ys, k);
    }
    SafePartialsOfPrefix(xs, ys, n);
  }

  /** Recording appends one accounted attempt, and bars no key but that attempt's own. */
  lemma RecordedAppends(s: Setup, l: Loop, i: nat)
    requires i < |s.Targets()| && |l.attempts| == i && Left(s, l) > 0
    requires l.total == TotalBefore(l.attempts, i) && l.goal == GoalBefore(s, l.attempts, i)
    ensures var l' := Recorded(s, l, i);
            var a := Last(l');
            && l'.attempts == l.attempts + [a]
            && a.position == i && !a.fastProved && Accounted(s, l'.attempts, i)
            && l'.total == a.total && l'.goal == a.goal
            && (a.call.fromCurrentList <==> l.proven == Some(s.Targets()[i].key))
            && l'.proven == (if a.call.fromCurrentList then None else l.proven)
            && l'.partials == l.partials + (if a.branch.SafePartial? then 1 else 0)
            && forall key :: key != s.Targets()[i].key ==> (Skipped(l', key) <==> Skipped(l, key))
  {
    hide BranchOf, NewTotal, NewGoal, FinalDecision;
  }

  lemma StartsFromProofAppend(attempts: seq<Attempt>, a: Attempt)
    requires StartsFromProof(attempts)
    requires a.call.fromCurrentList <==> attempts != [] && attempts[|attempts| - 1].fastProved
    ensures StartsFromProof(attempts + [a])
  {
    var more := attempts + [a];
    forall k | 0 <= k < |more| ensures more[k].call.fromCurrentList <==> ProvedBefore(more, k) {
      if k < |attempts| {
        assert more[k] == attempts[k] && (k > 0 ==> more[k - 1] == attempts[k - 1]);
      } else if k > 0 {
        assert more[k - 1] == attempts[|attempts| - 1];
      }
    }
  }

  lemma StartsFromProofMark(attempts: seq<Attempt>, a: Attempt)
    requires StartsFromProof(attempts) && attempts != [] && a == attempts[|attempts| - 1].(fastProved := a.fastProved)
    ensures StartsFromProof(attempts[|attempts| - 1 := a])
  {
    var marked := attempts[|attempts| - 1 := a];
    forall k | 0 <= k < |marked| ensures marked[k].call.fromCurrentList <==> ProvedBefore(marked, k) {
      assert marked[k].call == attempts[k].call && (k > 0 ==> marked[k - 1] == attempts[k - 1]);
    }
  }

  /** Recording attempt `i` keeps the shape, up to the licence of attempt `i` itself. */
  lemma RecordedShape(s: Setup, l: Loop, i: nat)
    requires i < |s.Targets()| && RT.DistinctKeys(s.Targets()) && Shaped(s, l, i) && Left(s, l) > 0
    requires l.total == TotalBefore(l.attempts, i) && l.goal == GoalBefore(s, l.attempts, i)
    ensures var l' := Recorded(s, l, i);
            && |l'.attempts| == i + 1 && !l'.attempts[i].fastProved && l'.proven.None?
            && (forall k :: 0 <= k <= i ==> l'.attempts[k].position == k && Accounted(s, l'.attempts, k))
            && (forall k :: 0 <= k < i ==> Licensed(s, l'.attempts, k))
            && StartsFromProof(l'.attempts)
            && l'.total == TotalBefore(l'.attempts, i + 1) && l'.goal == GoalBefore(s, l'.attempts, i + 1)
            && (forall j :: i < j < |s.Targets()| ==> !Skipped(l', s.Targets()[j].key))
            && l'.partials == SafePartials(l'.attempts, i + 1)
  {
    hide Recorded, Licensed, Accounted, Skipped, MaxFollowsPerTarget, MaxTargets, StartsFromProof;
    RecordedAppends(s, l, i);
    var l' := Recorded(s, l, i);
    StartsFromProofAppend(l.attempts, Last(l'));
    assert forall k :: 0 <= k < i ==> l'.attempts[k] == l.attempts[k];
    AttemptsCarry(s, l.attempts, l'.attempts, i);
    forall j | i < j < |s.Targets()| ensures !Skipped(l', s.Targets()[j].key) {
      assert !Skipped(l, s.Targets()[j].key);
      assert s.Targets()[i].key != s.Targets()[j].key;
    }
  }

  /** How a rotation may end: by its last attempt's verdict, or before another target because an
      authorized or reported goal is used up. */
  ghost predicate Finished(s: Setup, end: Loop, halt: Halt) {
    var n := |end.attempts|;
    && 0 < n <= |s.Targets()|
    && (forall k :: 0 <= k < n ==> end.attempts[k].position == k && Accounted(s, end.attempts, k))
    && StartsFromProof(end.attempts)
    && (forall k :: 0 <= k < n - 1 ==> Licensed(s, end.attempts, k))
    && (n < |s.Targets()| && Licensed(s, end.attempts, n - 1) ==>
          CapMet(end.goal, end.total) && halt == Halt(CAP_REACHED, 0, false))
    && (n == |s.Targets()| || !Licensed(s, end.attempts, n - 1) ==>
          var a := end.attempts[n - 1];
          Stop(halt) == VerdictOf(a.branch, a.reply, a.decision, CapMet(a.goal, a.total),
                                  SafePartials(end.attempts, n), n < |s.Targets()|, s.Truncated(), s.fast(n - 1)))
  }

  /** The verdict on the attempt just recorded, with what "a target is left" means here. */
  lemma RecordedVerdict(s: Setup, l: Loop, i: nat)
    requires i < |s.Targets()| && RT.DistinctKeys(s.Targets()) && |l.attempts| == i + 1
    requires Accounted(s, l.attempts, i) && l.partials == SafePartials(l.attempts, i + 1)
    requires forall j :: i < j < |s.Targets()| ==> !Skipped(l, s.Targets()[j].key)
    ensures var a := l.attempts[i];
            Judged(s, l, i) == VerdictOf(a.branch, a.reply, a.decision, CapMet(a.goal, a.total), l.partials,
                                         i + 1 < |s.Targets()|, s.Truncated(), s.fast(i))
    ensures Judged(s, l, i).Go? <==> i + 1 < |s.Targets()| && Licensed(s, l.attempts, i)
  {
    hide VerdictOf, BranchOf, MayFollow, NewTotal, NewGoal, FinalDecision, Next, PassedOver, MaxFollowsPerTarget;
    SuccessorIsNext(s, l, i);
    var a := l.attempts[i];
    GoIffMayFollow(a.reply, a.decision, s.scope, a.call.budget, CapMet(a.goal, a.total), SafePartials(l.attempts, i),
                   i + 1 < |s.Targets()|, s.Truncated(), s.fast(i));
  }

  lemma {:induction false} RunShape(s: Setup, l: Loop, i: nat)
    requires i < |s.Targets()| && RT.DistinctKeys(s.Targets()) && Shaped(s, l, i)
    requires l.total == TotalBefore(l.attempts, i) && l.goal == GoalBefore(s, l.attempts, i)
    ensures Run(s, l, i).1.Terminal? && Finished(s, Run(s, l, i).0, Run(s, l, i).1.halt)
    decreases |s.Targets()| - i
  {
    hide Run, Recorded, MovedOn, Accounted, Licensed, VerdictOf, Judged, MaxFollowsPerTarget;
    RunStep(s, l, i);
    assert !Skipped(l, s.Targets()[i].key);
    if Left(s, l) > 0 {
      var l' := Recorded(s, l, i);
      RecordedShape(s, l, i);
      RecordedVerdict(s, l', i);
      if Judged(s, l', i).Go? {
        SuccessorIsNext(s, l', i);
        MovedOnShape(s, l', i);
        RunShape(s, MovedOn(s, l', i), i + 1);
      }
    }
  }

  lemma MovedOnShape(s: Setup, l: Loop, i: nat)
    requires i + 1 < |s.Targets()| && |l.attempts| == i + 1
    requires Next(s, l, i) == Some(s.Targets()[i + 1])
    requires forall k :: 0 <= k <= i ==> l.attempts[k].position == k && Accounted(s, l.attempts, k)
    requires forall k :: 0 <= k <= i ==> Licensed(s, l.attempts, k)
    requires forall j :: i < j < |s.Targets()| ==> !Skipped(l, s.Targets()[j].key)
    requires StartsFromProof(l.attempts) && l.proven.None? && !l.attempts[i].fastProved
    requires l.partials == SafePartials(l.attempts, i + 1)
    requires l.total == TotalBefore(l.attempts, i + 1) && l.goal == GoalBefore(s, l.attempts, i + 1)
    ensures var l' := MovedOn(s, l, i);
            && Shaped(s, l', i + 1)
            && l'.total == TotalBefore(l'.attempts, i + 1) && l'.goal == GoalBefore(s, l'.attempts, i + 1)
  {
    hide Next, Licensed, Accounted, StartsFromProof, MaxTargets;
    var l' := MovedOn(s, l, i);
    StartsFromProofMark(l.attempts, Last(l'));
    assert l.attempts[|l.attempts| - 1 := Last(l')] == l'.attempts;
    assert forall k :: 0 <= k < i ==> l'.attempts[k] == l.attempts[k];
    AttemptsCarry(s, l.attempts, l'.attempts, i + 1);
  }

  lemma StartShaped(s: Setup)
    requires RT.DistinctKeys(s.Targets())
    ensures Shaped(s, Start(s), 0) && Left(s, Start(s)) > 0
  {
  }

  /** The end of a rotation over a list without repeated keys. */
  lemma RotateFinishes(s: Setup)
    requires RT.DistinctKeys(s.listed) && s.listed != []
    ensures Run(s, Start(s), 0).1.Terminal?
    ensures Finished(s, Run(s, Start(s), 0).0, Run(s, Start(s), 0).1.halt)
    ensures Rotate(s) == Assemble(Run(s, Start(s), 0).0, Run(s, Start(s), 0).1)
    ensures RT.DistinctKeys(s.Targets())
  {
    hide Run, Left, Shaped, Finished, Assemble, MaxTargets;
    assert RT.DistinctKeys(s.Targets());
    StartShaped(s);
    RunShape(s, Start(s), 0);
  }

  /** A non-empty rotation leaves through a terminal branch; its attempts are the first targets of
      the bounded list, in order and each key once; and an attempt starts from the current
      followers list exactly when the fast rotation after the attempt just before it proved that
      list. */
  lemma RotationShape(s: Setup)
    requires RT.DistinctKeys(s.listed) && s.listed != []
    ensures Run(s, Start(s), 0).1.Terminal?
    ensures var attempts := Rotate(s).attempts;
            && 0 < |attempts| <= |s.Targets()|
            && (forall k :: 0 <= k < |attempts| ==> attempts[k].call.target == s.Targets()[k])
            && (forall j, k :: 0 <= j < k < |attempts| ==> attempts[j].call.target.key != attempts[k].call.target.key)
            && StartsFromProof(attempts)
  {
    hide Run, Rotate, MaxTargets, BranchOf, Licensed, VerdictOf, MaxFollowsPerTarget, StartsFromProof, Accounted;
    RotateFinishes(s);
    AttemptedTargets(s, Rotate(s).attempts);
  }

  lemma AttemptedTargets(s: Setup, attempts: seq<Attempt>)
    requires RT.DistinctKeys(s.Targets()) && |attempts| <= |s.Targets()|
    requires forall k :: 0 <= k < |attempts| ==> attempts[k].position == k && Accounted(s, attempts, k)
    ensures forall k :: 0 <= k < |attempts| ==> attempts[k].call.target == s.Targets()[k]
    ensures forall j, k :: 0 <= j < k < |attempts| ==> attempts[j].call.target.key != attempts[k].call.target.key
  {
    hide MaxTargets, BranchOf, NewTotal, NewGoal, FinalDecision, MaxFollowsPerTarget;
    forall k | 0 <= k < |attempts| ensures attempts[k].call.target == s.Targets()[k] {
      assert Accounted(s, attempts, k);
    }
  }

  /** In every run a later target is attempted only with a licence; and a rotation that leaves a
      target of the bounded list unattempted had no licence, or had met its goal. */
  lemma LicenceToContinue(s: Setup)
    requires RT.DistinctKeys(s.listed) && s.listed != []
    ensures var o := Rotate(s);
            var n := |o.attempts|;
            && n > 0
            && (forall k :: 0 <= k < n - 1 ==> Licensed(s, o.attempts, k))
            && (n < |s.Targets()| ==> !Licensed(s, o.attempts, n - 1) || CapMet(o.goal, o.total))
  {
    hide Run, Rotate, MaxTargets, BranchOf, Licensed, VerdictOf, Accounted, StartsFromProof;
    RotateFinishes(s);
  }

  /** No failure of the target alone, and not the one stop reason after which a partial target may be left. */
  predicate NoOtherLicence(r: Reply) {
    !FailsLocally(r) && ReasonText(r) != "see_more_click_exhausted_after_bounded_recovery"
  }

  /** What a used-up budget does: as long as nothing else ends the rotation and no See More is left unfinished, the
      next target of the bounded list is attempted exactly when there is one and the goal is not met. One follow less
      than asked for, and no other licence, ends the rotation. */
  lemma UsedUpBudget(s: Setup, k: nat)
    requires RT.DistinctKeys(s.listed) && s.listed != [] && k < |Rotate(s).attempts|
    requires var r := Rotate(s).attempts[k].reply;
             && r.exitCode !in {53, 66, 97} && !EndsRotation(ReasonText(r)) && !SaysExhausted(r) && ListSettled(r)
    ensures var n, a := |Rotate(s).attempts|, Rotate(s).attempts[k];
            var met := a.goal.Some? && a.total >= a.goal.value;
            && (CountOf(a.reply) >= a.call.budget ==> (k + 1 < n <==> k + 1 < |s.Targets()| && !met))
            && (CountOf(a.reply) < a.call.budget && NoOtherLicence(a.reply) ==> k + 1 == n)
  {
    hide Run, Rotate, MaxTargets, BranchOf, Licensed, VerdictOf, Accounted, StartsFromProof;
    RotateFinishes(s);
    RotateBooks(s);
    UsedUpLicence(s, Rotate(s).attempts, k);
  }

  lemma UsedUpLicence(s: Setup, attempts: seq<Attempt>, k: nat)
    requires k < |attempts| && Accounted(s, attempts, k)
    requires var r := attempts[k].reply;
             && r.exitCode !in {53, 66, 97} && !EndsRotation(ReasonText(r)) && !SaysExhausted(r) && ListSettled(r)
    ensures var a := attempts[k];
            && (CountOf(a.reply) >= a.call.budget ==>
                  (Licensed(s, attempts, k) <==> !(a.goal.Some? && a.total >= a.goal.value)))
            && (CountOf(a.reply) < a.call.budget && NoOtherLicence(a.reply) ==> !Licensed(s, attempts, k))
  {
    hide BranchOf, NewTotal, NewGoal, FinalDecision, MaxFollowsPerTarget, SaysExhausted, FailsLocally, ReasonText,
      EndsRotation, ListSettled;
    assert 1 <= s.Cap() by { CapPositive(s); }
  }

  lemma CapPositive(s: Setup)
    ensures 1 <= s.Cap()
  {
  }

  lemma SafePartialMustBeFirst(r: Reply, decision: Option<FD.Decision>, scope: FD.Scope, budget: int, capMet: bool,
                               earlier: nat, fastOk: bool)
    requires MayFollow(r, decision, budget, capMet, earlier, fastOk)
    ensures BranchOf(r, decision, scope, budget).SafePartial? ==> earlier == 0
  {
    ReadingsAgree(r, decision, budget);
    hide Exhausted, SaysExhausted, BudgetReached, UsesUpBudget, IsLocalFailure, FailsLocally, ListSettled, Skippable,
      FD.Validate, StopText, ReasonText, Text.Strip;
  }

  lemma {:induction false} SafePartialsLicensed(s: Setup, attempts: seq<Attempt>, k: nat)
    requires k <= |attempts|
    requires forall j :: 0 <= j < k ==> Accounted(s, attempts, j) && Licensed(s, attempts, j)
    ensures SafePartials(attempts, k) <= 1
  {
    hide BranchOf, NewTotal, NewGoal, FinalDecision, MayFollow, MaxTargets, MaxFollowsPerTarget;
    if k > 0 {
      SafePartialsLicensed(s, attempts, k - 1);
      assert Accounted(s, attempts, k - 1) && Licensed(s, attempts, k - 1);
      var a := attempts[k - 1];
      SafePartialMustBeFirst(a.reply, a.decision, s.scope, a.call.budget, CapMet(a.goal, a.total),
                             SafePartials(attempts, k - 1), s.fast(k - 1));
    }
  }

  /** At most one safe partial failure per run is followed by another target. */
  lemma OneSafePartialPerRun(s: Setup)
    requires RT.DistinctKeys(s.listed) && s.listed != []
    ensures var attempts := Rotate(s).attempts;
            |attempts| > 0 && SafePartials(attempts, |attempts| - 1) <= 1
  {
    hide Run, Rotate, MaxTargets, BranchOf, Licensed, VerdictOf, Accounted, StartsFromProof, SafePartials;
    RotateFinishes(s);
    SafePartialsLicensed(s, Rotate(s).attempts, |Rotate(s).attempts| - 1);
  }

  lemma UnlicensedEnvelope(s: Setup, attempts: seq<Attempt>, k: nat)
    requires k < |attempts| && Authoritative(attempts[k].reply.exitCode, attempts[k].decision)
    ensures !Licensed(s, attempts, k)
  {
    hide SaysExhausted, FailsLocally, FirstSafePartial;
  }

  /** The branch and the verdict of an attempt that only an envelope may explain. */
  lemma EnvelopeVerdict(r: Reply, decision: Option<FD.Decision>, scope: FD.Scope, budget: int, capMet: bool,
                        partials: nat, more: bool, truncated: bool, fastOk: bool)
    ensures match VerdictOf(BranchOf(r, decision, scope, budget), r, decision, capMet, partials, more, truncated,
        fastOk)
            case Go => !Authoritative(r.exitCode, decision)
            case Stop(halt) =>
              && (halt.sealed <==> Authoritative(r.exitCode, decision))
              && (halt.sealed ==>
                    if FD.Validate(decision, r.exitCode, scope).Valid? then halt.exitCode == r.exitCode
                    else halt.exitCode == 96 && halt.reason == "follow_termination_decision_invalid")
  {
    hide Exhausted, BoundarySafe, BudgetReached, FD.Validate, Or, StopText, Text.Strip, LocalReason, SafeToSkip,
      SeeMoreSettled;
  }

  /** Exit 53, and exit 97 with an envelope, end the rotation. A valid envelope keeps its exit code,
      an invalid one becomes exit 96; in both cases, and in no other, the merge after the loop is
      skipped. */
  lemma EnvelopeDecidesAlone(s: Setup)
    requires RT.DistinctKeys(s.listed) && s.listed != []
    ensures var o := Rotate(s);
            var n := |o.attempts|;
            && n > 0
            && (forall k :: 0 <= k < n - 1 ==> !Authoritative(o.attempts[k].reply.exitCode, o.attempts[k].decision))
            && var a := o.attempts[n - 1];
               && (o.sealed <==> Authoritative(a.reply.exitCode, a.decision))
               && (o.sealed ==>
                     if FD.Validate(a.decision, a.reply.exitCode, s.scope).Valid? then o.exitCode == a.reply.exitCode
                     else o.exitCode == 96 && o.reason == "follow_termination_decision_invalid")
  {
    hide Rotate, EndedBy, Accounted, Licensed, FD.Validate, Authoritative, MaxTargets;
    LicenceToContinue(s);
    RotationEnd(s);
    var attempts := Rotate(s).attempts;
    forall k | 0 <= k < |attempts| - 1 ensures !Authoritative(attempts[k].reply.exitCode, attempts[k].decision) {
      if Authoritative(attempts[k].reply.exitCode, attempts[k].decision) {
        UnlicensedEnvelope(s, attempts, k);
      }
    }
    EnvelopeAtEnd(s, Rotate(s));
  }

  lemma EnvelopeAtEnd(s: Setup, o: Outcome)
    requires EndedBy(s, o) && Accounted(s, o.attempts, |o.attempts| - 1)
    ensures var a := o.attempts[|o.attempts| - 1];
            && (o.sealed <==> Authoritative(a.reply.exitCode, a.decision))
            && (o.sealed ==>
                  if FD.Validate(a.decision, a.reply.exitCode, s.scope).Valid? then o.exitCode == a.reply.exitCode
                  else o.exitCode == 96 && o.reason == "follow_termination_decision_invalid")
  {
    hide BranchOf, VerdictOf, FinalDecision, NewTotal, NewGoal, FD.Validate, SafePartials, Authoritative, Licensed,
      CapMet, MaxTargets, MaxFollowsPerTarget;
    var n := |o.attempts|;
    var a := o.attempts[n - 1];
    if n < |s.Targets()| && Licensed(s, o.attempts, n - 1) {
      if Authoritative(a.reply.exitCode, a.decision) {
        UnlicensedEnvelope(s, o.attempts, n - 1);
      }
    } else {
      EnvelopeVerdict(a.reply, a.decision, s.scope, a.call.budget, CapMet(a.goal, a.total), SafePartials(o.attempts, n),
                      n < |s.Targets()|, s.Truncated(), s.fast(n - 1));
    }
  }

  lemma ExhaustedVerdict(branch: Branch, r: Reply, decision: Option<FD.Decision>, capMet: bool, partials: nat,
                         more: bool, truncated: bool, fastOk: bool, halt: Halt)
    requires VerdictOf(branch, r, decision, capMet, partials, more, truncated, fastOk) == Stop(halt)
    ensures branch.TargetExhausted? ==> (halt.reason == "all_targets_exhausted" <==> !more && !truncated)
  {
  }

  /** The verdict that ended the rotation: that on its last attempt, or a goal used up before another target. */
  ghost predicate EndedBy(s: Setup, o: Outcome) {
    && o.attempts != []
    && var n := |o.attempts|;
       var a := o.attempts[n - 1];
       && n <= |s.Targets()|
       && if n < |s.Targets()| && Licensed(s, o.attempts, n - 1) then
            o.exitCode == 0 && o.reason == CAP_REACHED && !o.sealed
          else
            VerdictOf(a.branch, a.reply, a.decision, CapMet(a.goal, a.total), SafePartials(o.attempts, n),
                      n < |s.Targets()|, s.Truncated(), s.fast(n - 1))
            == Stop(Halt(o.reason, o.exitCode, o.sealed))
  }

  lemma RotationEnd(s: Setup)
    requires RT.DistinctKeys(s.listed) && s.listed != []
    ensures EndedBy(s, Rotate(s)) && Accounted(s, Rotate(s).attempts, |Rotate(s).attempts| - 1)
  {
    hide Run, Rotate, MaxTargets, BranchOf, VerdictOf, Licensed, Accounted, StartsFromProof, SafePartials, CapMet;
    RotateFinishes(s);
  }

  /** How a whole rotation ends, by the fields of its last reply: reason, exit code, and whether an envelope decided
      alone. Only a goal that is met before another target that may follow is no matter of that reply. */
  lemma RotationEndsExactly(s: Setup)
    requires RT.DistinctKeys(s.listed) && s.listed != []
    ensures Rotate(s).attempts != []
    ensures var o := Rotate(s);
            var n := |o.attempts|;
            var a := o.attempts[n - 1];
            Halt(o.reason, o.exitCode, o.sealed)
            == if n < |s.Targets()| && Licensed(s, o.attempts, n - 1) then Halt("global_follow_cap_reached", 0, false)
               else HaltFor(a.reply, a.decision, FD.Validate(a.decision, a.reply.exitCode, s.scope).Valid?,
                            a.call.budget, a.goal.Some? && a.total >= a.goal.value, SafePartials(o.attempts, n - 1),
                            n < |s.Targets()|, |s.Targets()| < |s.listed|)
  {
    hide Rotate, MaxTargets, MaxFollowsPerTarget, BranchOf, VerdictOf, Licensed, FinalDecision, NewTotal, NewGoal,
      FD.Validate, HaltFor;
    RotationEnd(s);
    var o := Rotate(s);
    var n := |o.attempts|;
    var a := o.attempts[n - 1];
    HaltExactly(a.reply, a.decision, s.scope, a.call.budget, CapMet(a.goal, a.total), SafePartials(o.attempts, n - 1),
                n < |s.Targets()|, s.Truncated(), s.fast(n - 1));
  }

  /** "All targets exhausted" says that the whole list was walked through and that its last target
      was exhausted; what it says of the earlier ones is only that each left a licence to go on. */
  lemma AllExhaustedMeansLastExhausted(s: Setup)
    requires RT.DistinctKeys(s.listed) && s.listed != []
    ensures var o := Rotate(s);
            && o.attempts != []
            && (o.allExhausted <==> |o.attempts| == |s.listed| && o.attempts[|o.attempts| - 1].branch.TargetExhausted?)
  {
    hide Run, Rotate, MaxTargets, MaxFollowsPerTarget, StartsFromProof, BranchOf, VerdictOf, MayFollow,
      Accounted, Licensed, SafePartials, CapMet;
    RotateFinishes(s);
    var attempts := Rotate(s).attempts;
    var n := |attempts|;
    var a := attempts[n - 1];
    if n == |s.Targets()| || !Licensed(s, attempts, n - 1) {
      ExhaustedVerdict(a.branch, a.reply, a.decision, CapMet(a.goal, a.total), SafePartials(attempts, n),
                       n < |s.Targets()|, s.Truncated(), s.fast(n - 1), Run(s, Start(s), 0).1.halt);
    }
  }

  // -----------------------------------------------------------------------
  // What the result records

  /** The keys of the attempts whose target turned out to be exhausted. */
  function ExhaustedKeys(attempts: seq<Attempt>): set<string> {
    if attempts == [] then {}
    else
      var last := attempts[|attempts| - 1];
      ExhaustedKeys(attempts[..|attempts| - 1]) + if last.branch.TargetExhausted? then {last.call.target.key} else {}
  }

  /** The fast rotation is tried after a used-up budget and after a safe partial failure. */
  predicate FastAfter(s: Setup, a: Attempt) {
    (a.branch.TargetBudget? || a.branch.SafePartial?) && s.fast(a.position)
  }

  /** The records of a loop whose first `open` attempts have been followed by a move. */
  ghost predicate Records(s: Setup, l: Loop, open: nat) {
    && l.exhausted == ExhaustedKeys(l.attempts)
    && (forall k :: 0 <= k < |l.attempts| && l.attempts[k].fastProved ==> FastAfter(s, l.attempts[k]))
    && (forall k :: 0 <= k < open && k < |l.attempts| && FastAfter(s, l.attempts[k]) ==> l.attempts[k].fastProved)
  }

  lemma RecordedRecords(s: Setup, l: Loop, i: nat)
    requires i < |s.Targets()| && Records(s, l, |l.attempts|)
    ensures Records(s, Recorded(s, l, i), |l.attempts|)
  {
    hide BranchOf, NewTotal, NewGoal, FinalDecision;
    var l' := Recorded(s, l, i);
    assert l'.attempts[..|l'.attempts| - 1] == l.attempts;
  }

  lemma GoHasNext(s: Setup, l: Loop, i: nat)
    requires i < |s.Targets()| && l.attempts != [] && Judged(s, l, i).Go?
    ensures Next(s, l, i).Some?
  {
    hide Next, SeeMoreSettled, BoundarySafe, SafeToSkip;
  }

  lemma SameExhausted(attempts: seq<Attempt>, a: Attempt)
    requires attempts != [] && a == attempts[|attempts| - 1].(fastProved := a.fastProved)
    ensures ExhaustedKeys(attempts[|attempts| - 1 := a]) == ExhaustedKeys(attempts)
  {
    var marked := attempts[|attempts| - 1 := a];
    assert marked[..|marked| - 1] == attempts[..|attempts| - 1];
  }

  lemma MovedOnRecords(s: Setup, l: Loop, i: nat)
    requires i < |s.Targets()| && l.attempts != [] && Records(s, l, |l.attempts| - 1)
    requires Last(l).position == i && Judged(s, l, i).Go?
    ensures Records(s, MovedOn(s, l, i), |l.attempts|) && |MovedOn(s, l, i).attempts| == |l.attempts|
  {
    hide Next, Judged, MaxTargets, ExhaustedKeys;
    GoHasNext(s, l, i);
    var l' := MovedOn(s, l, i);
    SameExhausted(l.attempts, Last(l'));
    assert l'.attempts[..|l'.attempts| - 1] == l.attempts[..|l.attempts| - 1];
  }

  lemma {:induction false} RunRecords(s: Setup, l: Loop, i: nat)
    requires i <= |s.Targets()| && Records(s, l, |l.attempts|)
    ensures var end := Run(s, l, i).0; Records(s, end, if end.attempts == [] then 0 else |end.attempts| - 1)
    decreases |s.Targets()| - i
  {
    hide Recorded, MovedOn, Run, Judged;
    RunStep(s, l, i);
    if i == |s.Targets()| {
    } else if Skipped(l, s.Targets()[i].key) {
      RunRecords(s, l, i + 1);
    } else if Left(s, l) > 0 {
      var l' := Recorded(s, l, i);
      RecordedRecords(s, l, i);
      RecordedPosition(s, l, i);
      if Judged(s, l', i).Go? {
        MovedOnRecords(s, l', i);
        RunRecords(s, MovedOn(s, l', i), i + 1);
      }
    }
  }

  lemma RecordedPosition(s: Setup, l: Loop, i: nat)
    requires i < |s.Targets()|
    ensures |Recorded(s, l, i).attempts| == |l.attempts| + 1 && Last(Recorded(s, l, i)).position == i
  {
    hide BranchOf, NewTotal, NewGoal, FinalDecision;
  }

  /** The exhausted targets of the result are exactly those whose attempt ended in exhaustion; and the fast
      rotation counts as a proof after exactly those attempts that used up their budget or failed at a safe
      boundary, and for which it succeeded. */
  lemma ResultRecords(s: Setup)
    ensures var o := Rotate(s);
            && o.exhausted == ExhaustedKeys(o.attempts)
            && (forall k :: 0 <= k < |o.attempts| && o.attempts[k].fastProved ==> FastAfter(s, o.attempts[k]))
            && (forall k :: 0 <= k < |o.attempts| - 1 && FastAfter(s, o.attempts[k]) ==> o.attempts[k].fastProved)
  {
    hide Run, ExhaustedKeys, FastAfter;
    assert ExhaustedKeys([]) == {} by { NothingExhausted(); }
    RunRecords(s, Start(s), 0);
  }

  lemma NothingExhausted()
    ensures ExhaustedKeys([]) == {}
  {
  }
}
