/** Two promises of the rotation that do not hold of every run, and exactly when they hold: that a quota bounds
    the follows made, whatever the engine reports, and that `all_targets_exhausted` speaks of all targets. */
module RotationLimits {
  import opened Options
  import Text
  import FD = FollowDecision
  import RT = RotationTargets
  import opened Rotation
  import opened Replies
  import opened RotationTheorems

  /** The follows made in a whole rotation. */
  function MadeBy(s: Setup): nat {
    Made(Rotate(s).attempts, |Rotate(s).attempts|)
  }

  // -----------------------------------------------------------------------
  // An engine that reports nothing

  /** A reply that reports nothing but a local failure that is safe to skip. */
  function Silent(made: nat): Reply {
    Reply(made, 0, None, "", "", None, None, None, None, None, "", false, false, "", "", "",
          true, true, false, None, FD.Signals([], "", ""))
  }

  /** The engine that uses up every budget and reports none of it. */
  function SilentEngine(): Engine {
    (i: nat, c: Call) => Silent(Max(0, c.budget))
  }

  lemma NoTokenInNothing(made: nat)
    ensures !SaysExhausted(Silent(made))
  {
    assert Text.Strip("") == "" && Text.Lower("") == "";
    assert forall token :: token != "" ==> !Text.Contains("", token);
    hide Text.Contains;
  }

  lemma SilentMayFollow(made: nat, scope: FD.Scope, total: int, goal: Option<int>, budget: int, earlier: nat,
                        fastOk: bool)
    ensures FinalDecision(Silent(made), scope, total) == None
    ensures MayFollow(Silent(made), None, budget, false, earlier, fastOk)
    ensures NewTotal(total, Silent(made)) == total && NewGoal(goal, Silent(made)) == goal
  {
    NoTokenInNothing(made);
    assert Text.Strip("") == "";
    hide SaysExhausted, Text.Strip;
  }

  /** A silent attempt leaves the ledger as it was, and a licence as long as the goal is not met. */
  lemma SilentAttempt(s: Setup, attempts: seq<Attempt>, k: nat, made: nat)
    requires k < |attempts| && Accounted(s, attempts, k) && attempts[k].reply == Silent(made)
    requires !CapMet(GoalBefore(s, attempts, k), TotalBefore(attempts, k))
    ensures Licensed(s, attempts, k)
    ensures TotalBefore(attempts, k + 1) == TotalBefore(attempts, k)
    ensures GoalBefore(s, attempts, k + 1) == GoalBefore(s, attempts, k)
  {
    hide MayFollow, BranchOf, FinalDecision, NewTotal, NewGoal;
    var a, total, goal := attempts[k], TotalBefore(attempts, k), GoalBefore(s, attempts, k);
    SilentMayFollow(made, s.scope, total, goal, a.call.budget, SafePartials(attempts, k), s.fast(k));
    SilentMayFollow(made, s.scope, total + a.reply.completed.GetOr(0), goal, a.call.budget, 0, false);
  }

  ghost predicate SilentUnderQuota(s: Setup) {
    s.engine == SilentEngine() && s.quota.Some? && s.quota.value > 0
  }

  /** Under a quota every silent attempt makes as many follows as the first may, and no count ever tells. */
  lemma {:induction false} SilentAttempts(s: Setup, attempts: seq<Attempt>, k: nat)
    requires SilentUnderQuota(s) && AllAccounted(s, attempts) && k <= |attempts|
    ensures TotalBefore(attempts, k) == 0 && GoalBefore(s, attempts, k) == s.quota
    ensures Made(attempts, k) == k * Min(s.Cap(), s.quota.value)
    ensures k > 0 ==> Licensed(s, attempts, k - 1)
  {
    hide BranchOf, FinalDecision, NewTotal, NewGoal, MaxFollowsPerTarget, MaxTargets, Licensed;
    if k > 0 {
      SilentAttempts(s, attempts, k - 1);
      assert Accounted(s, attempts, k - 1);
      var budget := Min(s.Cap(), s.quota.value);
      assert attempts[k - 1].call.budget == budget;
      SilentAttempt(s, attempts, k - 1, budget);
      assert k * budget == (k - 1) * budget + budget;
    }
  }

  /** What a rotation looks like whose attempts are known to be licensed. */
  lemma RotationFacts(s: Setup)
    requires RT.DistinctKeys(s.listed) && s.listed != []
    ensures var o := Rotate(s);
            var n := |o.attempts|;
            && 0 < n <= |s.Targets()| && AllAccounted(s, o.attempts)
            && o.total == TotalBefore(o.attempts, n) && o.goal == GoalBefore(s, o.attempts, n)
            && (forall k :: 0 <= k < n ==> o.attempts[k].call.target == s.Targets()[k])
            && (forall k :: 0 <= k < n - 1 ==> Licensed(s, o.attempts, k))
            && (n < |s.Targets()| ==> !Licensed(s, o.attempts, n - 1) || CapMet(o.goal, o.total))
  {
    hide Run, Rotate, Licensed, Accounted, StartsFromProof, MaxTargets, MaxFollowsPerTarget;
    RotationShape(s);
    LicenceToContinue(s);
    RotateBooks(s);
  }

  lemma SilentRotation(s: Setup)
    requires SilentUnderQuota(s) && RT.DistinctKeys(s.listed) && s.listed != []
    ensures |Rotate(s).attempts| == |s.Targets()| && MadeBy(s) == |s.Targets()| * Min(s.Cap(), s.quota.value)
  {
    hide Rotate, AllAccounted, Licensed, MaxTargets, MaxFollowsPerTarget;
    RotationFacts(s);
    SilentAttempts(s, Rotate(s).attempts, |Rotate(s).attempts|);
  }

  // -----------------------------------------------------------------------
  // When the quota holds

  /** The quota bounds the follows made, whichever engine runs that honours its budgets. */
  ghost predicate QuotaAlwaysHolds(s: Setup)
    requires s.quota.Some?
  {
    forall e: Engine :: HonoursBudget(e) ==> MadeBy(s.(engine := e)) <= s.quota.value
  }

  lemma SilentHonoursBudget()
    ensures HonoursBudget(SilentEngine())
  {
  }

  lemma MinTimes(n: nat, cap: int, quota: int)
    requires cap > 0 && quota > 0
    ensures n * Min(cap, quota) <= quota <==> n <= 1 || n * cap <= quota
  {
    if n >= 2 {
      assert n * quota >= 2 * quota && n * cap >= 2 * cap;
      if cap > quota {
        assert n * cap > quota;
      }
    }
  }

  lemma TimesGrows(m: nat, n: nat, cap: int)
    requires m <= n && cap > 0
    ensures m * cap <= n * cap
  {
  }

  lemma FewOrSmall(s: Setup)
    requires RT.DistinctKeys(s.listed) && s.listed != [] && s.quota.Some? && s.quota.value > 0
    requires HonoursBudget(s.engine) && (|s.Targets()| <= 1 || |s.Targets()| * s.Cap() <= s.quota.value)
    ensures MadeBy(s) <= s.quota.value
  {
    hide Rotate, Accounted, Licensed, AllAccounted, MaxTargets, MaxFollowsPerTarget, Made, HonoursBudget, CapMet,
      RT.DistinctKeys;
    RotationFacts(s);
    if |s.Targets()| <= 1 {
      RotationBoundUpToUnreported(s);
    } else {
      PerTargetBound(s);
      TimesGrows(|Rotate(s).attempts|, |s.Targets()|, s.Cap());
    }
  }

  /** Without honest counts the quota bounds the follows made exactly when there is one target to attempt, or when
      all of them together may not exceed it anyway. */
  lemma QuotaHoldsExactly(s: Setup)
    requires RT.DistinctKeys(s.listed) && s.listed != [] && s.quota.Some? && s.quota.value > 0
    ensures QuotaAlwaysHolds(s) <==> |s.Targets()| <= 1 || |s.Targets()| * s.Cap() <= s.quota.value
  {
    hide MadeBy, HonoursBudget, MaxTargets;
    var n := |s.Targets()|;
    MinTimes(n, s.Cap(), s.quota.value);
    if n <= 1 || n * s.Cap() <= s.quota.value {
      forall e: Engine | HonoursBudget(e) ensures MadeBy(s.(engine := e)) <= s.quota.value {
        var t := s.(engine := e);
        assert t.Targets() == s.Targets() && t.Cap() == s.Cap();
        FewOrSmall(t);
      }
    } else {
      var silent := s.(engine := SilentEngine());
      assert silent.Targets() == s.Targets() && silent.Cap() == s.Cap();
      SilentRotation(silent);
      SilentHonoursBudget();
    }
  }

  /** So the bound does rest on honest counts: on two targets an engine that honours every budget can make twice the
      quota, for every quota up to the per-target cap. */
  lemma UnreportedFollowsBreakTheBound(first: Target, second: Target, scope: FD.Scope, cap: Option<int>, quota: int)
    requires first.key != "" && second.key != "" && first.key != second.key
    requires 0 < quota <= MaxFollowsPerTarget(cap)
    ensures exists s: Setup :: HonoursBudget(s.engine) && s.quota == Some(quota) && s.maxFollowsPerTarget == cap
              && s.listed == [first, second] && MadeBy(s) == 2 * quota
  {
    hide MadeBy, MaxFollowsPerTarget, HonoursBudget;
    var s := Setup([first, second], Some(2), cap, Some(quota), scope, SilentEngine(), (i: nat) => false);
    assert s.Targets() == [first, second];
    SilentRotation(s);
    SilentHonoursBudget();
    assert s.quota == Some(quota) && s.maxFollowsPerTarget == cap && s.listed == [first, second];
  }

  // -----------------------------------------------------------------------
  // When all targets were exhausted

  lemma {:induction false} ExhaustedKeysExact(attempts: seq<Attempt>, key: string)
    ensures key in ExhaustedKeys(attempts)
       <==> exists k :: 0 <= k < |attempts| && attempts[k].branch.TargetExhausted? && attempts[k].call.target.key == key
  {
    if attempts != [] {
      var n := |attempts| - 1;
      ExhaustedKeysExact(attempts[..n], key);
      assert forall k :: 0 <= k < n ==> attempts[..n][k] == attempts[k];
    }
  }

  /** A licensed reply is exhausted exactly when its branch says so. */
  lemma ExhaustedBranch(r: Reply, decision: Option<FD.Decision>, scope: FD.Scope, budget: int, capMet: bool,
                        earlier: nat, fastOk: bool)
    ensures BranchOf(r, decision, scope, budget).TargetExhausted? ==> SaysExhausted(r)
    ensures MayFollow(r, decision, budget, capMet, earlier, fastOk) && SaysExhausted(r) ==>
              BranchOf(r, decision, scope, budget).TargetExhausted?
  {
    BranchExactly(r, decision, scope, budget);
    hide BranchOf, SaysExhausted, UsesUpBudget, FailsLocally, FD.Validate, ReasonText;
  }

  lemma ExhaustedAttempt(s: Setup, attempts: seq<Attempt>, k: nat)
    requires k < |attempts| && Accounted(s, attempts, k)
    requires Licensed(s, attempts, k) || attempts[k].branch.TargetExhausted?
    ensures attempts[k].branch.TargetExhausted? <==> SaysExhausted(attempts[k].reply)
  {
    hide BranchOf, MayFollow, FinalDecision, NewTotal, NewGoal, SaysExhausted, MaxTargets, MaxFollowsPerTarget;
    var a := attempts[k];
    ExhaustedBranch(a.reply, a.decision, s.scope, a.call.budget, CapMet(a.goal, a.total), SafePartials(attempts, k),
                    s.fast(k));
  }

  /** A rotation that reports all targets exhausted attempted them all, and each is among the exhausted ones exactly
      when its own reply reported exhaustion. */
  lemma ExhaustedTargets(s: Setup, k: nat)
    requires RT.DistinctKeys(s.listed) && s.listed != [] && Rotate(s).allExhausted && k < |s.listed|
    ensures |Rotate(s).attempts| == |s.listed|
    ensures s.listed[k].key in Rotate(s).exhausted <==> SaysExhausted(Rotate(s).attempts[k].reply)
  {
    hide Rotate, Accounted, Licensed, MaxTargets, MaxFollowsPerTarget, SaysExhausted, ExhaustedKeys;
    AllExhaustedMeansLastExhausted(s);
    ResultRecords(s);
    RotationFacts(s);
    var attempts := Rotate(s).attempts;
    assert s.Targets() == s.listed;
    ExhaustedAttempt(s, attempts, k);
    ExhaustedKeysExact(attempts, s.listed[k].key);
    assert forall j :: 0 <= j < |attempts| ==> attempts[j].call.target == s.listed[j];
  }

  /** When `all_targets_exhausted` is true of all: exactly when every reply reported exhaustion. */
  lemma AllWereExhaustedExactly(s: Setup)
    requires RT.DistinctKeys(s.listed) && s.listed != []
    ensures var o := Rotate(s);
            o.allExhausted ==>
              ((forall t :: t in s.listed ==> t.key in o.exhausted)
               <==> forall k :: 0 <= k < |o.attempts| ==> SaysExhausted(o.attempts[k].reply))
  {
    hide Rotate, SaysExhausted;
    if Rotate(s).allExhausted {
      forall k | 0 <= k < |s.listed|
        ensures |Rotate(s).attempts| == |s.listed|
        ensures s.listed[k].key in Rotate(s).exhausted <==> SaysExhausted(Rotate(s).attempts[k].reply)
      {
        ExhaustedTargets(s, k);
      }
      assert forall t :: t in s.listed <==> exists k :: 0 <= k < |s.listed| && s.listed[k] == t;
      ExhaustedTargets(s, 0);
    }
  }

  /** The engine of a run that reports all targets exhausted after skipping the first. */
  function SkippingEngine(): Engine {
    (i: nat, c: Call) => if i == 0 then Silent(0) else Silent(0).(exitCode := 66)
  }

  lemma SkippingFacts(s: Setup)
    requires RT.DistinctKeys(s.listed) && |s.listed| == 2 && s.Targets() == s.listed && s.quota.None?
    requires s.engine == SkippingEngine()
    ensures var attempts := Rotate(s).attempts;
            && |attempts| == 2 && attempts[0].reply == Silent(0)
            && attempts[1].branch.TargetExhausted?
  {
    hide Rotate, BranchOf, FinalDecision, NewTotal, NewGoal, Licensed, MaxTargets, MaxFollowsPerTarget,
      StartsFromProof;
    RotationFacts(s);
    AtPosition(s, 0);
    var attempts := Rotate(s).attempts;
    assert Accounted(s, attempts, 0);
    SilentAttempt(s, attempts, 0, 0);
    assert |attempts| == 2;
    AtPosition(s, 1);
    assert Accounted(s, attempts, 1);
    SkippingReply(s.scope, attempts[1].total, attempts[1].call.budget);
    var a := attempts[1];
    SkippingReply(s.scope, TotalBefore(attempts, 1) + a.reply.completed.GetOr(0), a.call.budget);
  }

  lemma AtPosition(s: Setup, k: nat)
    requires RT.DistinctKeys(s.listed) && s.listed != []
    ensures k < |Rotate(s).attempts| ==> Rotate(s).attempts[k].position == k
  {
    hide Run, Rotate, Licensed, Accounted, StartsFromProof, MaxTargets, VerdictOf;
    RotateFinishes(s);
  }

  lemma SkippingReply(scope: FD.Scope, total: int, budget: int)
    ensures var r := Silent(0).(exitCode := 66);
            FinalDecision(r, scope, total) == None && BranchOf(r, None, scope, budget).TargetExhausted?
  {
  }

  /** It need not be: a first target that was skipped and a second that was exhausted are reported as all targets
      exhausted. */
  lemma AllExhaustedSkipsTargets(first: Target, second: Target, scope: FD.Scope)
    requires first.key != "" && second.key != "" && first.key != second.key
    ensures exists s: Setup :: s.listed == [first, second] && Rotate(s).allExhausted
              && first.key !in Rotate(s).exhausted
  {
    hide Rotate, SaysExhausted, BranchOf;
    var s := Setup([first, second], Some(2), None, None, scope, SkippingEngine(), (i: nat) => false);
    assert s.Targets() == s.listed == [first, second];
    SkippingFacts(s);
    AllExhaustedMeansLastExhausted(s);
    NoTokenInNothing(0);
    ExhaustedTargets(s, 0);
    assert s.listed[0] == first;
  }
}
