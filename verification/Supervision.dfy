/** The dispatcher's supervision of one session subprocess: it renews the request lease and the device
    lock, asks for a soft stop at the business deadline, obeys a cancel, and kills at the hard deadline. */
module Supervision {
  import opened Options

  /** Times are seconds; `None` is a deadline that is absent or cannot be parsed. */
  datatype Config = Config(
    heartbeat: real,
    timeout: real,
    context: bool,
    business: Option<real>,
    scheduledEnd: Option<real>,
    deviceLock: bool,
    scopedControl: bool)
  {
    /** The hard deadline; ten minutes after the business deadline when no session end is scheduled. */
    function Hard(): Option<real> {
      if scheduledEnd.Some? then scheduledEnd
      else if business.Some? then Some(business.value + 600.0)
      else None
    }

    function Interval(): real {
      if heartbeat * 2.0 > 30.0 then heartbeat * 2.0 else 30.0
    }

    /** The lease a renewal asks for, clamped to what the control plane accepts. */
    function LeaseSeconds(): int {
      LeaseLength(Interval())
    }
  }

  function LeaseLength(interval: real): int {
    Max(60, Min(900, Max(120, (interval * 3.0).Floor)))
  }

  /** What reading the request row gives. */
  datatype Reading = Unreadable | Missing | Request(canceled: bool)

  /** What one pass of the loop meets: whether the child has exited, the request row, the clock at each
      point where the loop reads it, and whether a lease renewal would succeed. */
  datatype Pass = Pass(
    exit: Option<int>,
    reading: Reading,
    leaseNow: real,
    renews: bool,
    lockNow: real,
    lockDone: real,
    wall: real,
    ceilingNow: real)

  datatype Ending = Exited(code: int) | Canceled(graceSeconds: int) | Watchdog

  datatype Event =
    | LeaseRenewal(at: real, ok: bool)
    | LockRenewal(at: real)
    | SoftStop(at: real)
    | HumanStop
    | WatchdogStop

  /** When the next renewal is due, until when the lease runs, and whether the last renewal failed. */
  datatype Lease = Lease(due: real, until: real, missed: bool)

  datatype State = State(lease: Lease, lockDue: real, softStop: bool, events: seq<Event>)

  // -----------------------------------------------------------------------
  // One pass

  predicate PastHard(cfg: Config, start: real, p: Pass) {
    if cfg.Hard().Some? then p.wall >= cfg.Hard().value else p.ceilingNow >= start + cfg.timeout
  }

  /** How, if at all, the loop ends in a pass; it depends on nothing but that pass. */
  function EndingOf(cfg: Config, start: real, p: Pass): Option<Ending> {
    if p.exit.Some? then Some(Exited(p.exit.value))
    else if p.reading.Request? && p.reading.canceled then Some(Canceled(if cfg.scopedControl then 90 else 30))
    else if PastHard(cfg, start, p) then Some(Watchdog)
    else None
  }

  predicate RenewalDue(l: Lease, p: Pass) {
    p.reading.Request? && p.leaseNow >= l.due
  }

  function LeaseAfterPass(interval: real, l: Lease, p: Pass): Lease {
    if !RenewalDue(l, p) then l
    else Lease(p.leaseNow + interval, if p.renews then p.leaseNow + LeaseLength(interval) as real
        else l.until, !p.renews)
  }

  predicate SoftStopDue(cfg: Config, st: State, p: Pass) {
    cfg.context && cfg.business.Some? && !st.softStop && p.wall >= cfg.business.value
  }

  function PassEvents(cfg: Config, st: State, p: Pass): seq<Event> {
    (if RenewalDue(st.lease, p) then [LeaseRenewal(p.leaseNow, p.renews)] else []) +
    (if cfg.deviceLock && p.lockNow >= st.lockDue then [LockRenewal(p.lockNow)] else []) +
    (if SoftStopDue(cfg, st, p) then [SoftStop(p.wall)] else [])
  }

  /** A pass up to its check of the hard deadline. */
  function Advance(cfg: Config, st: State, p: Pass): State {
    State(LeaseAfterPass(cfg.Interval(), st.lease, p),
          if cfg.deviceLock && p.lockNow >= st.lockDue then p.lockDone + cfg.Interval() else st.lockDue,
          st.softStop || SoftStopDue(cfg, st, p),
          st.events + PassEvents(cfg, st, p))
  }

  function Close(cfg: Config, st: State, p: Pass, ending: Ending): State {
    match ending
    case Exited(_) => st
    case Canceled(_) => if cfg.context then st.(events := st.events + [HumanStop]) else st
    case Watchdog =>
      var last := Advance(cfg, st, p);
      if cfg.context then last.(events := last.events + [WatchdogStop]) else last
  }

  function Begin(start: real, until: real): State {
    State(Lease(start, until, false), start, false, [])
  }

  /** The state after the first `n` passes, none of which ended the loop. */
  function After(cfg: Config, begin: State, env: nat -> Pass, n: nat): State {
    if n == 0 then begin else Advance(cfg, After(cfg, begin, env, n - 1), env(n - 1))
  }

  // -----------------------------------------------------------------------
  // The loop

  /** Every pass ends with a sleep of one second, and no clock runs backwards. */
  ghost predicate Sleeps(env: nat -> Pass) {
    forall i: nat :: env(i + 1).wall >= env(i).wall + 1.0 && env(i + 1).ceilingNow >= env(i).ceilingNow + 1.0
  }

  function Left(cfg: Config, start: real, p: Pass): real {
    if cfg.Hard().Some? then cfg.Hard().value - p.wall else start + cfg.timeout - p.ceilingNow
  }

  /** One pass of a child that is still at work: renewals, then the soft stop. */
  method Attend(cfg: Config, st: State, p: Pass) returns (after: State)
    ensures after == Advance(cfg, st, p)
  {
    hide LeaseLength;
    var lease, lockDue, softStop := st.lease, st.lockDue, st.softStop;
    var happened: seq<Event> := [];
    if p.reading.Request? && p.leaseNow >= lease.due {
      happened := [LeaseRenewal(p.leaseNow, p.renews)];
      if p.renews {
        lease := lease.(until := p.leaseNow + cfg.LeaseSeconds() as real);
      }
      lease := lease.(due := p.leaseNow + cfg.Interval(), missed := !p.renews);
    }
    if cfg.deviceLock && p.lockNow >= lockDue {
      happened := happened + [LockRenewal(p.lockNow)];
      lockDue := p.lockDone + cfg.Interval();
    }
    if cfg.business.Some? && !softStop && p.wall >= cfg.business.value {
      if cfg.context {
        happened := happened + [SoftStop(p.wall)];
        softStop := true;
      }
    }
    return State(lease, lockDue, softStop, st.events + happened);
  }

  // -----------------------------------------------------------------------
  // A pass, by its fields

  /** Renewals are two heartbeats apart, and at least thirty seconds; a lease is three such intervals long in whole
      seconds, at least two minutes and at most fifteen. */
  lemma IntervalExactly(cfg: Config)
    ensures var interval, length := cfg.Interval(), cfg.LeaseSeconds();
            && interval >= 30.0 && interval >= 2.0 * cfg.heartbeat
            && (interval == 30.0 || interval == 2.0 * cfg.heartbeat)
            && 120 <= length <= 900
            && (120.0 <= 3.0 * interval < 901.0 ==>
                  length as real <= 3.0 * interval && 3.0 * interval < length as real + 1.0)
            && (3.0 * interval >= 901.0 ==> length == 900) && (3.0 * interval < 120.0 ==> length == 120)
  {
  }

  /** What a pass that does not end the loop does: it renews the lease when the request row was read and a renewal is
      due, the device lock when one is supervised and due, and asks for the soft stop once, at the business deadline;
      in this order. */
  lemma PassExactly(cfg: Config, st: State, p: Pass)
    ensures var next := Advance(cfg, st, p);
            var lease := p.reading.Request? && st.lease.due <= p.leaseNow;
            var lock := cfg.deviceLock && st.lockDue <= p.lockNow;
            var soft := cfg.context && cfg.business.Some? && cfg.business.value <= p.wall && !st.softStop;
            && next.events == st.events
                              + (if lease then [LeaseRenewal(p.leaseNow, p.renews)] else [])
                              + (if lock then [LockRenewal(p.lockNow)] else [])
                              + (if soft then [SoftStop(p.wall)] else [])
            && next.softStop == (st.softStop || soft)
            && next.lockDue == (if lock then p.lockDone + cfg.Interval() else st.lockDue)
            && (!lease ==> next.lease == st.lease)
            && (lease ==>
                  && next.lease.due == p.leaseNow + cfg.Interval()
                  && next.lease.until == (if p.renews then p.leaseNow + cfg.LeaseSeconds() as real else st.lease.until))
  {
    hide LeaseLength;
  }

  // -----------------------------------------------------------------------
  // The endings, by the fields of a pass

  predicate ChildExited(p: Pass) {
    p.exit.Some?
  }

  /** The request row was read and is canceled. */
  predicate CancelRead(p: Pass) {
    p.reading == Request(true)
  }

  /** The hard deadline has been reached: the scheduled end of the session; for want of it, ten minutes after the
      business deadline; for want of both, the timeout since the start. */
  predicate HardReached(cfg: Config, start: real, p: Pass) {
    if cfg.scheduledEnd.Some? then p.wall >= cfg.scheduledEnd.value
    else if cfg.business.Some? then p.wall >= cfg.business.value + 600.0
    else p.ceilingNow >= start + cfg.timeout
  }

  /** The pass does not end the loop: the child runs, no cancel is read and there is time left. */
  predicate GoesOn(cfg: Config, start: real, p: Pass) {
    !ChildExited(p) && !CancelRead(p) && !HardReached(cfg, start, p)
  }

  /** What a pass that ends the loop ends it with: an exit comes before a cancel, and a cancel before the hard
      deadline; a canceled child gets 90 seconds under scoped control and 30 otherwise. */
  predicate EndsWith(cfg: Config, start: real, p: Pass, ending: Ending) {
    match ending
    case Exited(code) => p.exit == Some(code)
    case Canceled(grace) => !ChildExited(p) && CancelRead(p) && grace == if cfg.scopedControl then 90 else 30
    case Watchdog => !ChildExited(p) && !CancelRead(p) && HardReached(cfg, start, p)
  }

  lemma EndingExactly(cfg: Config, start: real, p: Pass)
    ensures EndingOf(cfg, start, p).None? <==> GoesOn(cfg, start, p)
    ensures forall ending :: EndingOf(cfg, start, p) == Some(ending) <==> EndsWith(cfg, start, p, ending)
  {
  }

  lemma PassHasNoStop(cfg: Config, st: State, p: Pass)
    ensures HumanStop !in PassEvents(cfg, st, p) && WatchdogStop !in PassEvents(cfg, st, p)
  {
  }

  lemma {:induction false} NoStopBefore(cfg: Config, start: real, until: real, env: nat -> Pass, n: nat)
    ensures var events := After(cfg, Begin(start, until), env, n).events;
            HumanStop !in events && WatchdogStop !in events
  {
    hide PassEvents, LeaseAfterPass, SoftStopDue;
    if n > 0 {
      NoStopBefore(cfg, start, until, env, n - 1);
      PassHasNoStop(cfg, After(cfg, Begin(start, until), env, n - 1), env(n - 1));
    }
  }

  /** A stop by hand is recorded exactly when a cancel ended the loop of a child with a context, and a stop by the
      watchdog exactly when the hard deadline did. */
  lemma StopsRecorded(cfg: Config, start: real, until: real, env: nat -> Pass, n: nat, ending: Ending)
    ensures var events := Close(cfg, After(cfg, Begin(start, until), env, n), env(n), ending).events;
            && (HumanStop in events <==> ending.Canceled? && cfg.context)
            && (WatchdogStop in events <==> ending.Watchdog? && cfg.context)
  {
    NoStopBefore(cfg, start, until, env, n);
    PassHasNoStop(cfg, After(cfg, Begin(start, until), env, n), env(n));
    hide After, PassEvents, LeaseAfterPass, SoftStopDue;
  }

  method WaitForSubprocess(cfg: Config, start: real, until: real, env: nat -> Pass)
    returns (ending: Ending, passes: nat, state: State)
    requires Sleeps(env)
    ensures forall i: nat :: i < passes ==> EndingOf(cfg, start, env(i)).None?
    ensures EndingOf(cfg, start, env(passes)) == Some(ending)
    ensures state == Close(cfg, After(cfg, Begin(start, until), env, passes), env(passes), ending)
    ensures (forall i: nat :: i < passes ==> GoesOn(cfg, start, env(i))) && EndsWith(cfg, start, env(passes), ending)
    ensures HumanStop in state.events <==> ending.Canceled? && cfg.context
    ensures WatchdogStop in state.events <==> ending.Watchdog? && cfg.context
  {
    hide Advance, GoesOn, EndsWith, PastHard;
    state := Begin(start, until);
    passes := 0;
    while true
      invariant forall i: nat :: i < passes ==> EndingOf(cfg, start, env(i)).None?
      invariant state == After(cfg, Begin(start, until), env, passes)
      decreases Left(cfg, start, env(passes))
    {
      var p := env(passes);
      if p.exit.Some? {
        ending := Exited(p.exit.value);
        break;
      }
      if p.reading.Request? && p.reading.canceled {
        if cfg.context {
          state := state.(events := state.events + [HumanStop]);
        }
        ending := Canceled(if cfg.scopedControl then 90 else 30);
        break;
      }
      state := Attend(cfg, state, p);
      if PastHard(cfg, start, p) {
        if cfg.context {
          state := state.(events := state.events + [WatchdogStop]);
        }
        ending := Watchdog;
        break;
      }
      TimeRunsOut(cfg, start, env, passes);
      passes := passes + 1;
    }
    LoopEnds(cfg, start, until, env, passes, ending);
  }

  lemma TimeRunsOut(cfg: Config, start: real, env: nat -> Pass, i: nat)
    requires Sleeps(env) && !PastHard(cfg, start, env(i))
    ensures Left(cfg, start, env(i)) > 0.0 && Left(cfg, start, env(i + 1)) <= Left(cfg, start, env(i)) - 1.0
  {
    assert env(i + 1).wall >= env(i).wall + 1.0;
  }

  lemma LoopEnds(cfg: Config, start: real, until: real, env: nat -> Pass, n: nat, ending: Ending)
    requires EndsAt(cfg, start, env, n, ending)
    ensures (forall i: nat :: i < n ==> GoesOn(cfg, start, env(i))) && EndsWith(cfg, start, env(n), ending)
    ensures var events := Close(cfg, After(cfg, Begin(start, until), env, n), env(n), ending).events;
            && (HumanStop in events <==> ending.Canceled? && cfg.context)
            && (WatchdogStop in events <==> ending.Watchdog? && cfg.context)
  {
    hide Close, After;
    forall i: nat | i < n ensures GoesOn(cfg, start, env(i)) {
      EndingExactly(cfg, start, env(i));
    }
    EndingExactly(cfg, start, env(n));
    StopsRecorded(cfg, start, until, env, n, ending);
  }

  // -----------------------------------------------------------------------
  // Safety and termination

  /** The loop ends in pass `n` with `ending`. */
  ghost predicate EndsAt(cfg: Config, start: real, env: nat -> Pass, n: nat, ending: Ending) {
    EndingOf(cfg, start, env(n)) == Some(ending) && forall i: nat :: i < n ==> EndingOf(cfg, start, env(i)).None?
  }

  /** Two worlds that differ only in whether reads and renewals succeed. */
  ghost predicate SameButControlPlane(env: nat -> Pass, env': nat -> Pass) {
    forall i: nat ::
      && env(i).exit == env'(i).exit && env(i).wall == env'(i).wall && env(i).ceilingNow == env'(i).ceilingNow
      && (env(i).reading.Request? && env(i).reading.canceled <==> env'(i).reading.Request? && env'(i).reading.canceled)
  }

  /** Failed reads and failed renewals never end the loop: they change neither when nor how it ends. */
  lemma FailuresNeverEnd(cfg: Config, start: real, env: nat -> Pass, env': nat -> Pass, n: nat, ending: Ending)
    requires SameButControlPlane(env, env')
    ensures EndsAt(cfg, start, env, n, ending) <==> EndsAt(cfg, start, env', n, ending)
  {
    forall i: nat ensures EndingOf(cfg, start, env(i)) == EndingOf(cfg, start, env'(i)) {
      assert env(i).exit == env'(i).exit;
    }
  }

  lemma {:induction false} WallAdvances(env: nat -> Pass, n: nat)
    requires Sleeps(env)
    ensures env(n).wall >= env(0).wall + n as real && env(n).ceilingNow >= env(0).ceilingNow + n as real
  {
    if n > 0 {
      WallAdvances(env, n - 1);
      assert env(n - 1 + 1).wall >= env(n - 1).wall + 1.0;
    }
  }

  /** The number of passes is bounded by the time that was left at the first one. */
  lemma PassBound(cfg: Config, start: real, env: nat -> Pass, n: nat, ending: Ending)
    requires Sleeps(env) && EndsAt(cfg, start, env, n, ending)
    ensures n == 0 || (n - 1) as real < Left(cfg, start, env(0))
  {
    if n > 0 {
      WallAdvances(env, n - 1);
      assert EndingOf(cfg, start, env(n - 1)).None?;
    }
  }

  lemma FindEnd(cfg: Config, start: real, env: nat -> Pass, i: nat)
    requires Sleeps(env) && forall j: nat :: j < i ==> EndingOf(cfg, start, env(j)).None?
    ensures exists n: nat, ending :: EndsAt(cfg, start, env, n, ending)
    decreases Left(cfg, start, env(i))
  {
    if EndingOf(cfg, start, env(i)).Some? {
      assert EndsAt(cfg, start, env, i, EndingOf(cfg, start, env(i)).value);
    } else {
      assert env(i + 1).wall >= env(i).wall + 1.0 && env(i + 1).ceilingNow >= env(i).ceilingNow + 1.0;
      FindEnd(cfg, start, env, i + 1);
    }
  }

  /** The loop always ends, within the passes that the time left allows; and failed reads and renewals change
      neither when nor how, in any world that differs only in them. */
  lemma EndsDespiteFailures(cfg: Config, start: real, env: nat -> Pass, env': nat -> Pass)
    requires Sleeps(env) && SameButControlPlane(env, env')
    ensures exists n: nat, ending ::
              && EndsAt(cfg, start, env, n, ending) && EndsAt(cfg, start, env', n, ending)
              && (n == 0 || (n - 1) as real < Left(cfg, start, env(0)))
  {
    hide EndsAt, Sleeps, SameButControlPlane;
    FindEnd(cfg, start, env, 0);
    var n: nat, ending :| EndsAt(cfg, start, env, n, ending);
    FailuresNeverEnd(cfg, start, env, env', n, ending);
    PassBound(cfg, start, env, n, ending);
  }

  /** When the soft stops among the events were asked for. */
  function SoftStops(events: seq<Event>): seq<real> {
    if events == [] then []
    else SoftStops(events[..|events| - 1]) + if events[|events| - 1].SoftStop? then [events[|events| - 1].at] else []
  }

  lemma {:induction false} SoftStopsConcat(a: seq<Event>, b: seq<Event>)
    ensures SoftStops(a + b) == SoftStops(a) + SoftStops(b)
  {
    if b == [] {
      assert a + b == a;
    } else {
      SoftStopsConcat(a, b[..|b| - 1]);
      assert (a + b)[..|a + b| - 1] == a + b[..|b| - 1];
    }
  }

  lemma PassSoftStops(cfg: Config, st: State, p: Pass)
    ensures SoftStops(PassEvents(cfg, st, p)) == if SoftStopDue(cfg, st, p) then [p.wall] else []
  {
    hide RenewalDue, SoftStopDue;
    var lease: seq<Event> := if RenewalDue(st.lease, p) then [LeaseRenewal(p.leaseNow, p.renews)] else [];
    var lock: seq<Event> := if cfg.deviceLock && p.lockNow >= st.lockDue then [LockRenewal(p.lockNow)] else [];
    var soft: seq<Event> := if SoftStopDue(cfg, st, p) then [SoftStop(p.wall)] else [];
    SoftStopsConcat(lease + lock, soft);
    SoftStopsConcat(lease, lock);
  }

  /** The soft stop is asked for exactly once, in the first pass at or after the business deadline, when
      there is a stop context; otherwise never. */
  lemma {:induction false} SoftStopOnce(cfg: Config, start: real, until: real, env: nat -> Pass, n: nat)
    requires Sleeps(env)
    ensures var st := After(cfg, Begin(start, until), env, n);
            && (st.softStop <==> n > 0 && cfg.context && cfg.business.Some? && env(n - 1).wall >= cfg.business.value)
            && (if st.softStop then |SoftStops(st.events)| == 1 && SoftStops(st.events)[0] >= cfg.business.value
                else SoftStops(st.events) == [])
  {
    if n > 0 {
      hide SoftStops;
      SoftStopOnce(cfg, start, until, env, n - 1);
      var before := After(cfg, Begin(start, until), env, n - 1);
      PassSoftStops(cfg, before, env(n - 1));
      SoftStopsConcat(before.events, PassEvents(cfg, before, env(n - 1)));
      if n > 1 {
        assert env(n - 2 + 1).wall >= env(n - 2).wall + 1.0;
      }
    }
  }

  /** A watchdog kill comes after a soft stop exactly when there is a context and the business deadline has
      passed by then; the kill is the last event. */
  lemma WatchdogAfterSoftStop(cfg: Config, start: real, until: real, env: nat -> Pass, n: nat)
    requires Sleeps(env) && EndsAt(cfg, start, env, n, Watchdog)
    ensures var st := Close(cfg, After(cfg, Begin(start, until), env, n), env(n), Watchdog);
            && |SoftStops(st.events)| <= 1
            && (SoftStops(st.events) != [] <==> cfg.context && cfg.business.Some? && env(n).wall >= cfg.business.value)
            && (cfg.context ==> st.events != [] && st.events[|st.events| - 1] == WatchdogStop)
            && (cfg.context && cfg.business.Some? && cfg.business.value <= cfg.Hard().value ==>
                SoftStops(st.events) != [])
  {
    SoftStopOnce(cfg, start, until, env, n + 1);
    var last := After(cfg, Begin(start, until), env, n + 1);
    SoftStopsConcat(last.events, [WatchdogStop]);
    assert SoftStops([WatchdogStop]) == [];
  }

  /** However the loop ends, the soft stop was asked for at most once and not before the business deadline. */
  lemma AtMostOneSoftStop(cfg: Config, start: real, until: real, env: nat -> Pass, n: nat, ending: Ending)
    requires Sleeps(env) && EndsAt(cfg, start, env, n, ending)
    ensures var soft := SoftStops(Close(cfg, After(cfg, Begin(start, until), env, n), env(n), ending).events);
            |soft| <= 1 && (soft != [] ==> cfg.context && cfg.business.Some? && soft[0] >= cfg.business.value)
  {
    hide After;
    var st := After(cfg, Begin(start, until), env, n);
    SoftStopOnce(cfg, start, until, env, n);
    SoftStopsConcat(st.events, [HumanStop]);
    assert SoftStops([HumanStop]) == [];
    if ending.Watchdog? {
      AtMostOneAtKill(cfg, start, until, env, n);
    }
  }

  lemma AtMostOneAtKill(cfg: Config, start: real, until: real, env: nat -> Pass, n: nat)
    requires Sleeps(env)
    ensures var soft := SoftStops(Close(cfg, After(cfg, Begin(start, until), env, n), env(n), Watchdog).events);
            |soft| <= 1 && (soft != [] ==> cfg.context && cfg.business.Some? && soft[0] >= cfg.business.value)
  {
    SoftStopOnce(cfg, start, until, env, n + 1);
    SoftStopsConcat(After(cfg, Begin(start, until), env, n + 1).events, [WatchdogStop]);
    assert SoftStops([WatchdogStop]) == [];
  }

  // -----------------------------------------------------------------------
  // The device lock

  /** When the device lock was last renewed by the first `n` passes, and in which pass. */
  ghost predicate LockRenewedIn(cfg: Config, begin: State, env: nat -> Pass, j: nat, n: nat) {
    && j < n && LockRenewal(env(j).lockNow) in After(cfg, begin, env, n).events
    && After(cfg, begin, env, n).lockDue == env(j).lockDone + cfg.Interval()
  }

  /** Passes are at most `longest` apart, and a renewal takes no negative time. */
  ghost predicate LockPaced(env: nat -> Pass, start: real, longest: real) {
    && env(0).lockNow >= start
    && forall i: nat :: env(i + 1).lockNow <= env(i).lockNow + longest && env(i).lockDone >= env(i).lockNow
  }

  /** A lock that is supervised is renewed in the first pass, and from then on never more than one pass after
      it is due; a lock that is not supervised is never renewed. */
  lemma {:induction false} LockRenewedInTime(cfg: Config, start: real, until: real, env: nat -> Pass, longest: real,
      n: nat)
    requires longest >= 0.0 && LockPaced(env, start, longest) && n > 0
    ensures cfg.deviceLock ==> exists j :: LockRenewedIn(cfg, Begin(start, until), env, j, n)
    ensures cfg.deviceLock ==> env(n).lockNow <= After(cfg, Begin(start, until), env, n).lockDue + longest
    ensures !cfg.deviceLock ==> forall at :: LockRenewal(at) !in After(cfg, Begin(start, until), env, n).events
  {
    var begin := Begin(start, until);
    assert After(cfg, begin, env, 0) == begin;
    var before, p := After(cfg, begin, env, n - 1), env(n - 1);
    assert env(n - 1 + 1).lockNow <= p.lockNow + longest;
    if n > 1 {
      LockRenewedInTime(cfg, start, until, env, longest, n - 1);
    }
    if cfg.deviceLock {
      if p.lockNow >= before.lockDue {
        LockEvent(cfg, before, p);
        assert LockRenewedIn(cfg, begin, env, n - 1, n);
      } else {
        var j :| LockRenewedIn(cfg, begin, env, j, n - 1);
        assert LockRenewedIn(cfg, begin, env, j, n);
      }
    }
  }

  lemma LockEvent(cfg: Config, st: State, p: Pass)
    requires cfg.deviceLock && p.lockNow >= st.lockDue
    ensures LockRenewal(p.lockNow) in PassEvents(cfg, st, p)
  {
    assert LockRenewal(p.lockNow) in [LockRenewal(p.lockNow)];
  }

  // -----------------------------------------------------------------------
  // Lease continuity

  /** The lease after `n` passes. */
  function LeaseAfter(interval: real, begin: Lease, env: nat -> Pass, n: nat): Lease {
    if n == 0 then begin else LeaseAfterPass(interval, LeaseAfter(interval, begin, env, n - 1), env(n - 1))
  }

  lemma {:induction false} LeaseOfLoop(cfg: Config, begin: State, env: nat -> Pass, n: nat)
    ensures After(cfg, begin, env, n).lease == LeaseAfter(cfg.Interval(), begin.lease, env, n)
  {
    if n > 0 {
      LeaseOfLoop(cfg, begin, env, n - 1);
    }
  }

  /** Every read succeeds, passes are between one second and `longest` apart, the first renewal succeeds, and
      no two renewals in a row fail. */
  ghost predicate Steady(interval: real, start: real, until: real, env: nat -> Pass, longest: real) {
    && env(0).leaseNow >= start && env(0).renews
    && (forall i: nat :: env(i).reading.Request?)
    && (forall i: nat :: 1.0 <= env(i + 1).leaseNow - env(i).leaseNow <= longest)
    && forall i: nat ::
         var l := LeaseAfter(interval, Lease(start, until, false), env, i);
         RenewalDue(l, env(i)) && !env(i).renews ==> !l.missed
  }

  /** The lease is still running when a pass comes, that is, it never ran out since the pass before. */
  ghost predicate Continuous(interval: real, start: real, until: real, env: nat -> Pass) {
    forall n: nat :: n > 0 ==> env(n).leaseNow < LeaseAfter(interval, Lease(start, until, false), env, n).until
  }

  lemma SteadyAt(interval: real, start: real, until: real, env: nat -> Pass, longest: real, i: nat)
    requires Steady(interval, start, until, env, longest)
    ensures env(0).leaseNow >= start && env(0).renews && env(i).reading.Request?
    ensures env(i + 1).leaseNow - env(i).leaseNow <= longest
    ensures var l := LeaseAfter(interval, Lease(start, until, false), env, i);
            RenewalDue(l, env(i)) && !env(i).renews ==> !l.missed
  {
    hide LeaseAfter, RenewalDue;
  }

  /** The next pass comes less than one pass after the renewal is due, and the lease was last extended one
      renewal ago, or two when the last one failed. */
  predicate Covered(interval: real, l: Lease, now: real, longest: real) {
    && now < l.due + longest
    && if l.missed then l.until > l.due - interval + LeaseLength(interval) as real - (interval + longest)
       else l.until == l.due - interval + LeaseLength(interval) as real
  }

  lemma CoveredStep(interval: real, l: Lease, p: Pass, next: real, longest: real)
    requires interval >= 30.0 && Covered(interval, l, p.leaseNow, longest) && next <= p.leaseNow + longest
    requires p.reading.Request? && (RenewalDue(l, p) && !p.renews ==> !l.missed)
    ensures Covered(interval, LeaseAfterPass(interval, l, p), next, longest)
  {
    hide LeaseLength;
  }

  lemma {:induction false} LeaseCovers(
      interval: real, start: real, until: real, env: nat -> Pass, longest: real, n: nat)
    requires interval >= 30.0 && longest >= 1.0 && Steady(interval, start, until, env, longest) && n > 0
    ensures Covered(interval, LeaseAfter(interval, Lease(start, until, false), env, n), env(n).leaseNow, longest)
  {
    hide LeaseLength, Steady;
    SteadyAt(interval, start, until, env, longest, n - 1);
    var before := LeaseAfter(interval, Lease(start, until, false), env, n - 1);
    if n > 1 {
      LeaseCovers(interval, start, until, env, longest, n - 1);
      CoveredStep(interval, before, env(n - 1), env(n).leaseNow, longest);
    } else {
      assert before == Lease(start, until, false);
    }
  }

  lemma LeaseContinuous(interval: real, start: real, until: real, env: nat -> Pass, longest: real)
    requires interval >= 30.0 && longest >= 1.0 && Steady(interval, start, until, env, longest)
    requires 2.0 * (interval + longest) <= LeaseLength(interval) as real
    ensures Continuous(interval, start, until, env)
  {
    hide LeaseLength, LeaseAfter, Steady;
    forall n: nat | n > 0 ensures env(n).leaseNow < LeaseAfter(interval, Lease(start, until, false), env, n).until {
      LeaseCovers(interval, start, until, env, longest, n);
    }
  }

  /** When no renewal fails at all, half of that will do. */
  lemma LeaseContinuousWithoutFailures(interval: real, start: real, until: real, env: nat -> Pass, longest: real)
    requires interval >= 30.0 && longest >= 1.0 && Steady(interval, start, until, env, longest)
    requires (forall i: nat :: env(i).renews) && interval + longest <= LeaseLength(interval) as real
    ensures Continuous(interval, start, until, env)
  {
    hide LeaseLength;
    forall n: nat | n > 0 ensures env(n).leaseNow < LeaseAfter(interval, Lease(start, until, false), env, n).until {
      LeaseCovers(interval, start, until, env, longest, n);
      NeverMissed(interval, start, until, env, n);
    }
  }

  lemma {:induction false} NeverMissed(interval: real, start: real, until: real, env: nat -> Pass, n: nat)
    requires forall i: nat :: env(i).renews
    ensures !LeaseAfter(interval, Lease(start, until, false), env, n).missed
  {
    if n > 0 {
      NeverMissed(interval, start, until, env, n - 1);
    }
  }

  /** Pass times of a schedule that lets the lease run out: the second renewal comes just late and fails, and
      the third comes just late too. */
  function LapseTime(interval: real, slack: real, i: nat): real {
    if i == 0 then 0.0
    else if i == 1 then (interval - slack) / 2.0
    else if i == 2 then interval - slack
    else if i == 3 then interval * 3.0 / 2.0 - slack
    else if i == 4 then interval * 2.0 - slack
    else if i == 5 then interval * 5.0 / 2.0 - slack * 3.0 / 2.0
    else interval * 3.0 - slack * 3.0 / 2.0 + (i - 6) as real
  }

  function LapsePass(interval: real, slack: real, i: nat): Pass {
    Pass(None, Request(false), LapseTime(interval, slack, i), i != 3, 0.0, 0.0, 0.0, 0.0)
  }

  function LapseSchedule(interval: real, slack: real): nat -> Pass {
    (i: nat) => LapsePass(interval, slack, i)
  }

  lemma LapseLeases(interval: real, slack: real)
    requires interval >= 30.0 && 0.0 < slack <= interval * 3.0 / 8.0
    ensures var length := LeaseLength(interval) as real;
            && LeaseAfter(interval, Lease(0.0, 0.0, false), LapseSchedule(interval, slack), 3) == Lease(interval,
                length, false)
            && LeaseAfter(interval, Lease(0.0, 0.0, false), LapseSchedule(interval, slack), 6)
            == Lease(interval * 5.0 / 2.0 - slack, length, true)
  {
    hide LeaseLength;
    var env, begin := LapseSchedule(interval, slack), Lease(0.0, 0.0, false);
    assert LeaseAfter(interval, begin, env, 0) == begin;
    assert LeaseAfter(interval, begin, env, 1) == Lease(interval, LeaseLength(interval) as real, false);
    assert LeaseAfter(interval, begin, env, 2) == LeaseAfter(interval, begin, env, 1);
    assert LeaseAfter(interval, begin, env, 3) == LeaseAfter(interval, begin, env, 2);
    assert LeaseAfter(interval, begin, env, 4) == Lease(interval * 5.0 / 2.0 - slack, LeaseLength(interval) as real,
        true);
    assert LeaseAfter(interval, begin, env, 5) == LeaseAfter(interval, begin, env, 4);
  }

  lemma LapseSteady(interval: real, slack: real)
    requires interval >= 30.0 && 0.0 < slack <= interval * 3.0 / 8.0
    ensures Steady(interval, 0.0, 0.0, LapseSchedule(interval, slack), interval / 2.0)
  {
    hide LeaseLength, LeaseAfter;
    LapseLeases(interval, slack);
  }

  /** Whatever the interval: with passes at most half an interval long and no two renewals in a row failing,
      the lease never runs out under any schedule exactly when it is at least three intervals long. */
  lemma LeaseContinuityExact(interval: real)
    requires interval >= 30.0
    ensures (forall start, until, env :: Steady(interval, start, until, env, interval / 2.0) ==>
        Continuous(interval, start, until, env))
        <==> 3.0 * interval <= LeaseLength(interval) as real
  {
    hide Steady, Continuous, LeaseAfter;
    if 3.0 * interval <= LeaseLength(interval) as real {
      forall start, until, env | Steady(interval, start, until, env, interval / 2.0) ensures Continuous(interval,
          start, until, env) {
        LeaseContinuous(interval, start, until, env, interval / 2.0);
      }
    } else {
      var slack := (3.0 * interval - LeaseLength(interval) as real) / 8.0;
      LapseSteady(interval, slack);
      LapseNotContinuous(interval, slack);
    }
  }

  lemma LapseNotContinuous(interval: real, slack: real)
    requires interval >= 30.0 && 0.0 < slack <= interval * 3.0 / 8.0
    requires LeaseLength(interval) as real == 3.0 * interval - 8.0 * slack
    ensures !Continuous(interval, 0.0, 0.0, LapseSchedule(interval, slack))
  {
    hide LeaseLength, LeaseAfter;
    LapseLeases(interval, slack);
  }

  /** The lease is three intervals long up to an interval of 40 seconds, and beyond that only up to 300 seconds
      and for intervals whose triple is a whole number: the length is truncated to whole seconds. */
  lemma LeaseLengthCovers(interval: real)
    requires interval >= 30.0
    ensures 3.0 * interval <= LeaseLength(interval) as real
       <==> interval <= 40.0 || (interval <= 300.0 && (interval * 3.0).Floor as real == interval * 3.0)
  {
  }
}
