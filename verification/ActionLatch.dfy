/** The process-local latch around device actions, and the threads that make nested guarded calls. */
module ActionLatch {
  import opened Options

  /** The part of the trace that the protocol is about. */
  datatype Trace = Trace(stopSetAt: Option<int>, stopReason: string, quiescedAt: Option<int>, lastActionAt: Option<int>)

  datatype Latch = Latch(enabled: bool, stop: bool, active: nat, trace: Trace)

  const CLEAN := Trace(None, "", None, None)

  function Configured(enabled: bool): Latch {
    Latch(enabled, false, 0, CLEAN)
  }

  /** The moment of quiescence is stamped once. */
  function Quiesce(l: Latch, at: int): Latch {
    if l.stop && l.active == 0 && l.trace.quiescedAt.None? then l.(trace := l.trace.(quiescedAt := Some(at))) else l
  }

  function Stopped(l: Latch, reason: string, at: int): Latch {
    Quiesce(if l.stop then l else l.(stop := true, trace := l.trace.(stopSetAt := Some(at), stopReason := reason)), at)
  }

  predicate Blocks(l: Latch) {
    l.enabled && l.stop
  }

  function Entered(l: Latch, at: int): Latch {
    if Blocks(l) then l else l.(active := l.active + 1, trace := l.trace.(lastActionAt := Some(at)))
  }

  function Left(l: Latch, at: int): Latch {
    Quiesce(l.(active := if l.active > 0 then l.active - 1 else 0), at)
  }

  /** The module's globals; each method runs under the lock. */
  class DeviceActionLatch {
    var enabled: bool
    var stopRequested: bool
    var activeActions: nat
    var trace: Trace

    ghost function Value(): Latch
      reads this
    {
      Latch(enabled, stopRequested, activeActions, trace)
    }

    constructor (enabled: bool)
      ensures Value() == Configured(enabled)
    {
      this.enabled, stopRequested, activeActions, trace := enabled, false, 0, CLEAN;
    }

    method Configure(enabled: bool)
      modifies this
      ensures Value() == Configured(enabled)
    {
      this.enabled, stopRequested, activeActions, trace := enabled, false, 0, CLEAN;
    }

    method RequestStop(reason: string, at: int) returns (snapshot: Trace)
      modifies this
      ensures Value() == Stopped(old(Value()), reason, at) && snapshot == trace
    {
      if !stopRequested {
        stopRequested := true;
        trace := trace.(stopSetAt := Some(at), stopReason := reason);
      }
      if activeActions == 0 && trace.quiescedAt.None? {
        trace := trace.(quiescedAt := Some(at));
      }
      return trace;
    }

    method Before(at: int) returns (blocked: bool)
      modifies this
      ensures Value() == Entered(old(Value()), at) && blocked == Blocks(old(Value()))
    {
      if enabled && stopRequested {
        return true;
      }
      activeActions := activeActions + 1;
      trace := trace.(lastActionAt := Some(at));
      return false;
    }

    method After(at: int)
      modifies this
      ensures Value() == Left(old(Value()), at)
    {
      activeActions := if activeActions > 0 then activeActions - 1 else 0;
      if stopRequested && activeActions == 0 && trace.quiescedAt.None? {
        trace := trace.(quiescedAt := Some(at));
      }
    }
  }

  // -----------------------------------------------------------------------
  // Threads making guarded calls

  type Thread = nat

  datatype Step =
    | Stop(reason: string, at: int)
    | Enter(thread: Thread, at: int)
    | Leave(thread: Thread, at: int)

  /** The latch and the calls in flight, one occurrence of a thread for each of its nested calls. */
  datatype World = World(latch: Latch, open: multiset<Thread>, entries: nat, exits: nat)

  predicate Possible(w: World, step: Step) {
    step.Leave? ==> step.thread in w.open
  }

  /** A blocked call raises before it begins, so it never leaves. */
  function Apply(w: World, step: Step): World {
    match step
    case Stop(reason, at) => w.(latch := Stopped(w.latch, reason, at))
    case Enter(t, at) =>
      if Blocks(w.latch) then w.(latch := Entered(w.latch, at))
      else World(Entered(w.latch, at), w.open + multiset{t}, w.entries + 1, w.exits)
    case Leave(t, at) => World(Left(w.latch, at), w.open - multiset{t}, w.entries, w.exits + 1)
  }

  function After(enabled: bool, steps: seq<Step>, n: nat): World
    requires n <= |steps|
  {
    if n == 0 then World(Configured(enabled), multiset{}, 0, 0) else Apply(After(enabled, steps, n - 1), steps[n - 1])
  }

  /** Any interleaving in which a thread leaves only calls it is in; no `configure` while it lasts. */
  predicate IsRun(enabled: bool, steps: seq<Step>) {
    forall k :: 0 <= k < |steps| ==> Possible(After(enabled, steps, k), steps[k])
  }

  predicate CounterExactIn(w: World) {
    w.latch.active == |w.open| == w.entries - w.exits
  }

  lemma CounterStep(w: World, step: Step)
    requires CounterExactIn(w) && Possible(w, step)
    ensures CounterExactIn(Apply(w, step))
  {
    match step {
      case Stop(_, _) =>
      case Enter(t, _) => assert |w.open + multiset{t}| == |w.open| + 1;
      case Leave(t, _) => assert |w.open - multiset{t}| == |w.open| - 1;
    }
  }

  /** The counter is exactly the calls entered and not left, whatever the nesting. */
  lemma {:induction false} CounterExact(enabled: bool, steps: seq<Step>, n: nat)
    requires IsRun(enabled, steps) && n <= |steps|
    ensures CounterExactIn(After(enabled, steps, n))
  {
    hide Apply, Possible;
    if n > 0 {
      CounterExact(enabled, steps, n - 1);
      CounterStep(After(enabled, steps, n - 1), steps[n - 1]);
    }
  }

  /** What no step undoes: enabling, the stop and the stamp; and what a step of a blocked latch cannot do. */
  lemma StepKeeps(w: World, step: Step)
    ensures var w' := Apply(w, step);
            && w'.latch.enabled == w.latch.enabled
            && (w.latch.stop ==> w'.latch.stop)
            && (w.latch.trace.quiescedAt.Some? ==> w'.latch.trace.quiescedAt == w.latch.trace.quiescedAt)
            && (Blocks(w.latch) ==> w'.entries == w.entries && w'.open <= w.open)
  {
    if step.Leave? {
      assert w.open - multiset{step.thread} <= w.open;
    }
  }

  /** After the stop of an enabled latch no call enters any more, and the calls in flight only run out. */
  lemma {:induction false} NothingEntersAfterStop(steps: seq<Step>, i: nat, n: nat)
    requires i <= n <= |steps| && After(true, steps, i).latch.stop
    ensures var before, after := After(true, steps, i), After(true, steps, n);
            after.latch.stop && after.entries == before.entries && after.open <= before.open
    ensures Blocks(After(true, steps, n).latch)
  {
    hide Apply;
    if i < n {
      NothingEntersAfterStop(steps, i, n - 1);
      StepKeeps(After(true, steps, n - 1), steps[n - 1]);
    } else {
      StaysEnabled(true, steps, n);
    }
  }

  lemma {:induction false} StaysEnabled(enabled: bool, steps: seq<Step>, n: nat)
    requires n <= |steps|
    ensures After(enabled, steps, n).latch.enabled == enabled
  {
    hide Apply;
    if n > 0 {
      StaysEnabled(enabled, steps, n - 1);
      StepKeeps(After(enabled, steps, n - 1), steps[n - 1]);
    }
  }

  /** Step `j` is the first stop of the run. */
  predicate FirstStop(steps: seq<Step>, j: nat) {
    j < |steps| && steps[j].Stop? && forall i :: 0 <= i < j ==> !steps[i].Stop?
  }

  /** The trace carries the reason and the time of the first stop, whatever later stops say, and none before it. */
  lemma {:induction false} FirstStopStays(enabled: bool, steps: seq<Step>, n: nat)
    requires n <= |steps|
    ensures var l := After(enabled, steps, n).latch;
            && (forall j: nat :: FirstStop(steps, j) && j < n ==>
                  l.stop && l.trace.stopSetAt == Some(steps[j].at) && l.trace.stopReason == steps[j].reason)
            && ((forall j :: 0 <= j < n ==> !steps[j].Stop?) ==>
                  !l.stop && l.trace.stopSetAt.None? && l.trace.stopReason == "")
  {
    hide Apply;
    if n > 0 {
      FirstStopStays(enabled, steps, n - 1);
      StopStep(After(enabled, steps, n - 1), steps[n - 1]);
      assert (exists j: nat :: FirstStop(steps, j) && j < n - 1) || forall j :: 0 <= j < n - 1 ==> !steps[j].Stop? by {
        if !exists j: nat :: FirstStop(steps, j) && j < n - 1 {
          NoStopYet(steps, n - 1);
        }
      }
    }
  }

  lemma StopStep(w: World, step: Step)
    ensures var l, l' := w.latch, Apply(w, step).latch;
            && (step.Stop? && !l.stop ==>
                  l'.stop && l'.trace.stopSetAt == Some(step.at) && l'.trace.stopReason == step.reason)
            && (!step.Stop? || l.stop ==>
                  && l'.stop == l.stop && l'.trace.stopSetAt == l.trace.stopSetAt
                  && l'.trace.stopReason == l.trace.stopReason)
  {
  }

  lemma {:induction false} NoStopYet(steps: seq<Step>, n: nat)
    requires n <= |steps| && !exists j: nat :: FirstStop(steps, j) && j < n
    ensures forall j :: 0 <= j < n ==> !steps[j].Stop?
  {
    if n > 0 {
      NoStopYet(steps, n - 1);
      assert steps[n - 1].Stop? ==> FirstStop(steps, n - 1);
    }
  }

  /** Which calls enter: all of them, except after a stop of an enabled latch. A call that enters is counted and is the
      last action so far; one that does not changes nothing. */
  lemma EntersExactly(enabled: bool, steps: seq<Step>, n: nat)
    requires n < |steps| && steps[n].Enter?
    ensures var before, after := After(enabled, steps, n), After(enabled, steps, n + 1);
            if enabled && exists j :: 0 <= j < n && steps[j].Stop? then after == before
            else && after.entries == before.entries + 1 && after.open == before.open + multiset{steps[n].thread}
                 && after.latch.active == before.latch.active + 1
                 && after.latch.trace.lastActionAt == Some(steps[n].at)
  {
    StaysEnabled(enabled, steps, n);
    FirstStopStays(enabled, steps, n);
    if exists j: nat :: FirstStop(steps, j) && j < n {
    } else {
      NoStopYet(steps, n);
    }
  }

  /** The last action of the trace is that of the last call that entered. */
  lemma LastActionKept(enabled: bool, steps: seq<Step>, n: nat)
    requires n < |steps| && !steps[n].Enter?
    ensures After(enabled, steps, n + 1).latch.trace.lastActionAt == After(enabled, steps, n).latch.trace.lastActionAt
    ensures After(enabled, steps, 0).latch.trace.lastActionAt.None?
  {
  }

  /** A call that ends without having begun leaves the counter at zero. */
  lemma CounterNeverNegative(l: Latch, at: int)
    requires l.active == 0
    ensures Left(l, at).active == 0
  {
  }

  /** Stopped, with no call in flight. */
  predicate Quiet(w: World) {
    w.latch.stop && |w.open| == 0
  }

  /** The first of the states up to `n` that is quiet. */
  predicate FirstQuiet(enabled: bool, steps: seq<Step>, k: nat, n: nat)
    requires n <= |steps|
  {
    0 < k <= n && Quiet(After(enabled, steps, k)) && forall j :: 0 <= j < k ==> !Quiet(After(enabled, steps, j))
  }

  /** A step stamps exactly when it leaves the world quiet and nothing was stamped before. */
  lemma StampStep(w: World, step: Step)
    requires CounterExactIn(w) && Possible(w, step) && (Quiet(w) ==> w.latch.trace.quiescedAt.Some?)
    ensures var stamp, stamp' := w.latch.trace.quiescedAt, Apply(w, step).latch.trace.quiescedAt;
            stamp' == if stamp.None? && Quiet(Apply(w, step)) then Some(step.at) else stamp
  {
    CounterStep(w, step);
  }

  /** The quiescence stamp is set exactly at the first quiet moment, and never moves. */
  lemma {:induction false} StampedAtFirstQuiet(enabled: bool, steps: seq<Step>, n: nat)
    requires IsRun(enabled, steps) && n <= |steps|
    ensures var stamp := After(enabled, steps, n).latch.trace.quiescedAt;
            && (stamp.None? <==> forall j :: 0 <= j <= n ==> !Quiet(After(enabled, steps, j)))
            && (stamp.Some? ==> exists k :: FirstQuiet(enabled, steps, k, n) && stamp.value == steps[k - 1].at)
  {
    hide Apply, Possible, Quiet;
    if n == 0 {
      StartsUnquiet(enabled, steps);
    } else {
      StampedAtFirstQuiet(enabled, steps, n - 1);
      CounterExact(enabled, steps, n - 1);
      StampStep(After(enabled, steps, n - 1), steps[n - 1]);
      var stamp := After(enabled, steps, n - 1).latch.trace.quiescedAt;
      if stamp.Some? {
        var k :| FirstQuiet(enabled, steps, k, n - 1) && stamp.value == steps[k - 1].at;
        assert FirstQuiet(enabled, steps, k, n);
      } else if Quiet(After(enabled, steps, n)) {
        assert forall j :: 0 <= j < n ==> !Quiet(After(enabled, steps, j));
        assert FirstQuiet(enabled, steps, n, n);
      }
    }
  }

  lemma StartsUnquiet(enabled: bool, steps: seq<Step>)
    ensures !Quiet(After(enabled, steps, 0)) && After(enabled, steps, 0).latch.trace.quiescedAt.None?
  {
  }

  /** Once an enabled latch is quiet it stays quiet: after the stamp no action is ever active again. */
  lemma QuietForever(steps: seq<Step>, i: nat, n: nat)
    requires IsRun(true, steps) && i <= n <= |steps| && After(true, steps, i).latch.trace.quiescedAt.Some?
    ensures Quiet(After(true, steps, n)) && After(true, steps, n).latch.active == 0
    ensures After(true, steps, n).latch.trace.quiescedAt == After(true, steps, i).latch.trace.quiescedAt
  {
    StampedAtFirstQuiet(true, steps, i);
    var k :| FirstQuiet(true, steps, k, i);
    NothingEntersAfterStop(steps, k, n);
    CounterExact(true, steps, n);
    assert After(true, steps, n).open == multiset{} by {
      assert |After(true, steps, k).open| == 0;
    }
    StampKept(true, steps, i, n);
  }

  lemma {:induction false} StampKept(enabled: bool, steps: seq<Step>, i: nat, n: nat)
    requires i <= n <= |steps| && After(enabled, steps, i).latch.trace.quiescedAt.Some?
    ensures After(enabled, steps, n).latch.trace.quiescedAt == After(enabled, steps, i).latch.trace.quiescedAt
  {
    hide Apply;
    if i < n {
      StampKept(enabled, steps, i, n - 1);
      StepKeeps(After(enabled, steps, n - 1), steps[n - 1]);
    }
  }

  /** A disabled latch records the stop but blocks nothing: an action can be active after the stamp. */
  lemma DisabledLatchDoesNotHold()
    ensures exists steps: seq<Step> :: IsRun(false, steps)
              && After(false, steps, |steps|).latch.trace.quiescedAt.Some?
                  && After(false, steps, |steps|).latch.active > 0
  {
    var steps := [Stop("manual_stop", 1), Enter(0, 2)];
    assert After(false, steps, 0).latch == Configured(false);
    assert After(false, steps, 1).latch.trace.quiescedAt == Some(1);
    assert After(false, steps, 2).latch.active == 1;
    assert IsRun(false, steps);
  }

  /** After the stamp of this run no action is ever active. */
  ghost predicate HoldsQuiet(enabled: bool, steps: seq<Step>) {
    forall i: nat, n: nat :: i <= n <= |steps| && After(enabled, steps, i).latch.trace.quiescedAt.Some? ==>
      After(enabled, steps, n).latch.active == 0
  }

  /** The stamp can be relied on in every run exactly when the latch is enabled. */
  lemma QuietExactly(enabled: bool)
    ensures (forall steps :: IsRun(enabled, steps) ==> HoldsQuiet(enabled, steps)) <==> enabled
  {
    if enabled {
      forall steps | IsRun(true, steps) ensures HoldsQuiet(true, steps) {
        forall i: nat, n: nat | i <= n <= |steps| && After(true, steps, i).latch.trace.quiescedAt.Some?
          ensures After(true, steps, n).latch.active == 0
        {
          QuietForever(steps, i, n);
        }
      }
    } else {
      DisabledLatchDoesNotHold();
      var steps: seq<Step> :| IsRun(false, steps)
        && After(false, steps, |steps|).latch.trace.quiescedAt.Some?
        && After(false, steps, |steps|).latch.active > 0;
      assert !HoldsQuiet(false, steps);
    }
  }

  /** Reconfiguring keeps the counter exact if and only if no call is in flight; with one in flight the next
      stop is stamped as quiescent although an action is still running. */
  lemma ReconfigureInFlight(w: World, enabled: bool, reason: string, at: int)
    requires w.latch.active == |w.open|
    ensures var again := w.(latch := Configured(enabled));
            && (again.latch.active == |again.open| <==> |w.open| == 0)
            && var stopped := Apply(again, Stop(reason, at));
               stopped.latch.trace.quiescedAt == Some(at) && (Quiet(stopped) <==> |w.open| == 0)
  {
  }
}
