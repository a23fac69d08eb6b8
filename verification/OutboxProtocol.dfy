/** The queue under any number of enqueuers and drainers, crashes and lease expiry: every database
    statement is one step, and steps of different processes interleave freely. */
module OutboxProtocol {
  import opened Options
  import opened Outbox
  import Text

  type Worker = nat

  /** What a drainer knows of the record at the head of its batch. */
  datatype Stage = Ready | Succeeded | Refused

  datatype Drainer = Idle | Working(batch: seq<Id>, lease: int, stage: Stage)

  /** The shared table and clock, each drainer's private progress, and what has happened so far:
      which ids were enqueued, the successful replays, the recorded failures, and the rows
      a drainer left locked when it crashed. */
  datatype System = System(
    rows: Table,
    clock: int,
    drainers: map<Worker, Drainer>,
    enqueued: set<Id>,
    replayed: multiset<Id>,
    failures: multiset<Id>,
    orphans: map<Id, Worker>)
  {
    function At(d: Worker): Drainer {
      if d in drainers then drainers[d] else Idle
    }

    predicate Holds(d: Worker, id: Id) {
      At(d).Working? && id in At(d).batch
    }
  }

  datatype Step =
    | Tick(to: int)
    | Enqueue(records: seq<Record>, ids: seq<Id>, stamp: int)
    | Claim(worker: Worker, readAt: int, limit: int, picked: seq<Id>)
    | Replay(worker: Worker, ok: bool)
    | Write(worker: Worker)
    | GiveUp(worker: Worker)
    | Crash(worker: Worker)

  const START := System(map[], 0, map[], {}, multiset{}, multiset{}, map[])

  ghost predicate Enabled(s: System, step: Step) {
    match step
    case Tick(to) => s.clock <= to
    case Enqueue(records, ids, stamp) =>
      && |ids| == |records| && Distinct(ids) && (forall k :: 0 <= k < |ids| ==> ids[k] !in s.enqueued)
      && forall k :: 0 <= k < |records| ==> !TooLarge(records[k])
    case Claim(d, readAt, limit, picked) =>
      s.At(d).Idle? && readAt <= s.clock && OldestPending(Reclaim(s.rows, readAt), limit, picked)
    case Replay(d, _) => s.At(d).Working? && s.At(d).batch != [] && s.At(d).stage.Ready?
    case Write(d) => s.At(d).Working? && s.At(d).batch != [] && !s.At(d).stage.Ready?
    case GiveUp(d) => s.At(d).Working? && s.At(d).batch != [] && s.At(d).stage.Ready?
    case Crash(d) => s.At(d).Working?
  }

  /** The ids under which the accepted ones of the first `n` records go in. */
  function AcceptedIds(records: seq<Record>, ids: seq<Id>, n: nat): set<Id>
    requires n <= |records| == |ids|
  {
    if n == 0 then {}
    else AcceptedIds(records, ids, n - 1) + if Accepts(records[n - 1]) then {ids[n - 1]} else {}
  }

  function Rest(d: Drainer): Drainer
    requires d.Working? && d.batch != []
  {
    if |d.batch| == 1 then Idle else Working(d.batch[1..], d.lease, Ready)
  }

  ghost function Apply(s: System, step: Step): System
    requires Enabled(s, step)
  {
    match step
    case Tick(to) => s.(clock := to)
    case Enqueue(records, ids, stamp) =>
      s.(rows := Inserted(s.rows, records, ids, stamp, |records|), enqueued := s.enqueued + AcceptedIds(records,
          ids, |records|))
    case Claim(d, readAt, limit, picked) =>
      var lease := readAt + CLAIM_LEASE_SECONDS;
      s.(rows := Lock(Reclaim(s.rows, readAt), picked, lease),
         drainers := s.drainers[d := if picked == [] then Idle else Working(picked, lease, Ready)],
         orphans := s.orphans - (set id | id in s.rows && Expired(s.rows[id], readAt)))
    case Replay(d, ok) =>
      s.(drainers := s.drainers[d := s.At(d).(stage := if ok then Succeeded else Refused)],
         replayed := if ok then s.replayed + multiset{s.At(d).batch[0]} else s.replayed)
    case Write(d) =>
      var id := s.At(d).batch[0];
      var s' := s.(drainers := s.drainers[d := Rest(s.At(d))]);
      if s.At(d).stage.Succeeded? then s'.(rows := Delete(s.rows, id), orphans := s.orphans - {id})
      else s'.(rows := Fail(s.rows, id),
               failures := if id in s.rows then s.failures + multiset{id} else s.failures,
               orphans := s.orphans - {id})
    case GiveUp(d) =>
      s.(rows := Release(s.rows, s.At(d).batch), drainers := s.drainers[d := Idle],
         orphans := s.orphans - (set id | id in s.At(d).batch))
    case Crash(d) =>
      s.(drainers := s.drainers[d := Idle], orphans := s.orphans + (map id | id in s.At(d).batch :: d))
  }

  /** `states` is what the system goes through when `steps` are taken one after another from the start. */
  ghost predicate IsRun(states: seq<System>, steps: seq<Step>) {
    && |states| == |steps| + 1 && states[0] == START
    && forall k :: 0 <= k < |steps| ==> Enabled(states[k], steps[k]) && states[k + 1] == Apply(states[k], steps[k])
  }

  // -----------------------------------------------------------------------
  // At least once, under every interleaving

  /** Nothing is lost and failures are counted exactly. */
  predicate RowAccounted(s: System, id: Id) {
    && (id in s.rows ==>
          && id in s.enqueued
          && s.rows[id].attempts == s.failures[id]
          && (s.rows[id].state.DeadLetter? ==> s.rows[id].attempts >= MAX_FAILURES))
    && (id in s.enqueued ==> id in s.rows || id in s.replayed)
    && (id !in s.enqueued ==> s.failures[id] == 0)
  }

  /** A drainer works on enqueued records and only calls a replay successful after it was. */
  predicate WorkerAccounted(s: System, d: Worker) {
    s.At(d).Working? ==>
      && s.At(d).batch != []
      && (forall id :: id in s.At(d).batch ==> id in s.enqueued)
      && (s.At(d).stage.Succeeded? ==> s.At(d).batch[0] in s.replayed)
  }

  ghost predicate Accounted(s: System) {
    (forall id :: RowAccounted(s, id)) && (forall d :: WorkerAccounted(s, d))
  }

  /** A row that an enqueue adds is new, pending and untried. */
  lemma {:induction false} InsertedRow(t: Table, records: seq<Record>, ids: seq<Id>, now: int, n: nat, id: Id)
    requires n <= |records| == |ids|
    ensures var t' := Inserted(t, records, ids, now, n);
            && (id in t ==> id in t')
            && (id !in AcceptedIds(records, ids, n) ==> (id in t' <==> id in t) && (id in t ==> t'[id] == t[id]))
            && (id in AcceptedIds(records, ids, n) ==>
                  id in t' && t'[id].attempts == 0 && t'[id].state.Pending? && t'[id].lockedUntil.None?)
  {
    hide Accepts, Text.Strip;
    if n > 0 {
      InsertedRow(t, records, ids, now, n - 1, id);
    }
  }

  lemma {:induction false} AcceptedAmong(records: seq<Record>, ids: seq<Id>, n: nat)
    requires n <= |records| == |ids|
    ensures forall id :: id in AcceptedIds(records, ids, n) ==> exists k :: 0 <= k < |ids| && ids[k] == id
  {
    hide Accepts;
    if n > 0 {
      AcceptedAmong(records, ids, n - 1);
    }
  }

  /** One enqueue, seen from one row. */
  lemma EnqueuedRow(s: System, step: Step, id: Id)
    requires step.Enqueue? && Enabled(s, step)
    ensures var t := Apply(s, step);
            if id in t.enqueued && id !in s.enqueued then
              id in t.rows && t.rows[id].attempts == 0 && t.rows[id].state.Pending? && t.rows[id].lockedUntil.None?
            else (id in t.rows <==> id in s.rows) && (id in s.rows ==> t.rows[id] == s.rows[id])
  {
    hide Accepts, TooLarge, Inserted;
    InsertedRow(s.rows, step.records, step.ids, step.stamp, |step.records|, id);
    AcceptedAmong(step.records, step.ids, |step.records|);
  }

  lemma AccountedRow(s: System, step: Step, id: Id)
    requires Accounted(s) && Enabled(s, step)
    ensures RowAccounted(Apply(s, step), id)
  {
    hide Inserted, AcceptedIds, Accepts, TooLarge, OldestPending, Accounted;
    assert RowAccounted(s, id) by { AccountedParts(s, id, 0); }
    match step {
      case Enqueue(_, _, _) => EnqueuedRow(s, step, id);
      case Write(d) => AccountedParts(s, id, d);
      case _ =>
    }
  }

  lemma AccountedParts(s: System, id: Id, d: Worker)
    requires Accounted(s)
    ensures RowAccounted(s, id) && WorkerAccounted(s, d)
  {
  }

  lemma AccountedWorker(s: System, step: Step, d: Worker)
    requires Accounted(s) && Enabled(s, step)
    ensures WorkerAccounted(Apply(s, step), d)
  {
    hide Inserted, AcceptedIds, Accepts, TooLarge, OldestPending, Accounted;
    AccountedParts(s, 0, d);
    forall id | id in s.rows ensures id in s.enqueued { AccountedParts(s, id, d); }
    if step.Claim? && step.worker == d {
      PickedPresent(Reclaim(s.rows, step.readAt), step.limit, step.picked);
    }
  }

  lemma PickedPresent(t: Table, limit: int, picked: seq<Id>)
    requires OldestPending(t, limit, picked)
    ensures Distinct(picked) && forall id :: id in picked ==> id in t && t[id].state.Pending?
  {
  }

  lemma AccountedStep(s: System, step: Step)
    requires Accounted(s) && Enabled(s, step)
    ensures Accounted(Apply(s, step))
  {
    hide Enabled, Apply, RowAccounted, WorkerAccounted;
    forall id ensures RowAccounted(Apply(s, step), id) { AccountedRow(s, step, id); }
    forall d ensures WorkerAccounted(Apply(s, step), d) { AccountedWorker(s, step, d); }
  }

  /** At least once: whatever the interleaving and however many leases run out, an enqueued record is
      still in the table or has been replayed successfully, `attempts` is exactly the number of its
      recorded failures, and a dead letter has failed at least ten times. */
  lemma {:induction false} AtLeastOnce(states: seq<System>, steps: seq<Step>, k: nat)
    requires IsRun(states, steps) && k < |states|
    ensures Accounted(states[k])
  {
    hide Enabled, Apply, RowAccounted, WorkerAccounted;
    if k == 0 {
      StartAccounted();
    } else {
      AtLeastOnce(states, steps, k - 1);
      AccountedStep(states[k - 1], steps[k - 1]);
    }
  }

  lemma StartAccounted()
    ensures Accounted(START)
  {
  }

  // -----------------------------------------------------------------------
  // What is kept of a record

  /** No step changes what a row holds, and none brings back a record that has left the table. */
  lemma RecordStep(s: System, step: Step, id: Id)
    requires Accounted(s) && Enabled(s, step) && id in s.enqueued && id in Apply(s, step).rows
    ensures id in s.rows && SameRecord(s.rows[id], Apply(s, step).rows[id])
  {
    hide Inserted, AcceptedIds, Accepts, TooLarge, OldestPending, Accounted;
    AccountedParts(s, id, 0);
    if step.Enqueue? {
      EnqueuedRow(s, step, id);
    }
  }

  lemma {:induction false} RecordKept(states: seq<System>, steps: seq<Step>, i: nat, k: nat, id: Id)
    requires IsRun(states, steps) && i <= k < |states| && id in states[i].enqueued && id in states[k].rows
    ensures id in states[i].rows && SameRecord(states[i].rows[id], states[k].rows[id])
    decreases k - i
  {
    hide Enabled, Apply, Accounted;
    if i < k {
      AtLeastOnce(states, steps, i);
      EnqueuedStays(states[i], steps[i], id);
      RecordKept(states, steps, i + 1, k, id);
      RecordStep(states[i], steps[i], id);
    }
  }

  lemma EnqueuedStays(s: System, step: Step, id: Id)
    requires Enabled(s, step) && id in s.enqueued
    ensures id in Apply(s, step).enqueued
  {
    hide Inserted, AcceptedIds;
  }

  /** What an enqueue stored is what every later state holds under the same id, whatever the interleaving, as long as
      the record is in the table: its kind, its payload and the time of the enqueue. So a drainer that claims the
      record replays what was enqueued. */
  lemma KeptAsEnqueued(states: seq<System>, steps: seq<Step>, i: nat, m: nat, k: nat)
    requires IsRun(states, steps) && i < k < |states| && steps[i].Enqueue?
    requires m < |steps[i].ids| == |steps[i].records| && Takes(steps[i].records[m])
    requires steps[i].ids[m] in states[k].rows
    ensures HoldsRecord(states[k].rows[steps[i].ids[m]], steps[i].records[m], steps[i].stamp)
  {
    AtLeastOnce(states, steps, i);
    hide Accounted, Takes;
    StoredByEnqueue(states[i], steps[i], m);
    hide Enabled, Apply;
    RecordKept(states, steps, i + 1, k, steps[i].ids[m]);
  }

  lemma StoredByEnqueue(s: System, step: Step, m: nat)
    requires Accounted(s) && step.Enqueue? && Enabled(s, step)
    requires m < |step.ids| == |step.records| && Takes(step.records[m])
    ensures var t, id := Apply(s, step), step.ids[m];
            id in t.enqueued && id in t.rows && HoldsRecord(t.rows[id], step.records[m], step.stamp)
            && Untried(t.rows[id])
  {
    forall k | 0 <= k < |step.ids| ensures step.ids[k] !in s.rows {
      AccountedParts(s, step.ids[k], 0);
    }
    hide Accounted, Inserted, Takes, HoldsRecord, Untried, TooLarge;
    InsertedRows(s.rows, step.records, step.ids, step.stamp, |step.records|);
    TakesExactly(step.records[m], step.stamp);
    AcceptedHas(step.records, step.ids, |step.records|, m);
  }

  lemma {:induction false} AcceptedHas(records: seq<Record>, ids: seq<Id>, n: nat, m: nat)
    requires m < n <= |records| == |ids| && Accepts(records[m])
    ensures ids[m] in AcceptedIds(records, ids, n)
  {
    hide Accepts;
    if m < n - 1 {
      AcceptedHas(records, ids, n - 1, m);
    }
  }

  // -----------------------------------------------------------------------
  // Exclusion, when no lease runs out under a working drainer

  ghost predicate Timely(s: System) {
    forall d :: s.At(d).Working? ==> s.clock < s.At(d).lease
  }

  /** A working drainer holds its records under its own lease. */
  predicate Locked(s: System, d: Worker) {
    s.At(d).Working? ==>
      && s.At(d).batch != [] && Distinct(s.At(d).batch)
      && forall id :: id in s.At(d).batch ==>
           id in s.rows && s.rows[id].state.Processing? && s.rows[id].lockedUntil == Some(s.At(d).lease)
  }

  ghost predicate Apart(s: System, d: Worker, e: Worker) {
    d != e ==> forall id :: s.Holds(d, id) ==> !s.Holds(e, id)
  }

  /** A dead letter has failed exactly ten times, every other row less often, and a row in processing
      is held by a drainer or was left behind by one that crashed. */
  ghost predicate Settled(s: System, id: Id) {
    Counted(s, id) && Owned(s, id)
  }

  predicate Counted(s: System, id: Id) {
    id in s.rows ==>
      if s.rows[id].state.DeadLetter? then s.rows[id].attempts == MAX_FAILURES else s.rows[id].attempts < MAX_FAILURES
  }

  ghost predicate Owned(s: System, id: Id) {
    id in s.rows && s.rows[id].state.Processing? ==> id in s.orphans || exists d :: s.Holds(d, id)
  }

  ghost predicate Exclusive(s: System) {
    && (forall d :: Locked(s, d))
    && (forall d, e :: Apart(s, d, e))
    && (forall id :: Settled(s, id))
  }

  lemma ExclusiveParts(s: System, d: Worker, e: Worker, id: Id)
    requires Exclusive(s)
    ensures Locked(s, d) && Apart(s, d, e) && Settled(s, id)
  {
  }

  /** A claim takes no record that a working drainer still holds in time. */
  lemma ClaimTakesFree(s: System, step: Step, e: Worker, id: Id)
    requires step.Claim? && Enabled(s, step) && Locked(s, e) && s.Holds(e, id) && s.clock < s.At(e).lease
    ensures id !in step.picked && Apply(s, step).rows[id] == s.rows[id]
  {
    PickedPresent(Reclaim(s.rows, step.readAt), step.limit, step.picked);
  }

  /** An enqueue leaves every row already there as it is. */
  lemma EnqueueKeeps(s: System, step: Step, id: Id)
    requires step.Enqueue? && Enabled(s, step) && Accounted(s) && id in s.rows
    ensures id in s.rows && id in Apply(s, step).rows && Apply(s, step).rows[id] == s.rows[id]
  {
    hide Inserted, AcceptedIds, Accepts, TooLarge, Accounted;
    EnqueuedRow(s, step, id);
    AccountedParts(s, id, 0);
  }

  /** A step of another drainer, or of none, leaves a held record alone. */
  lemma HeldKept(s: System, step: Step, d: Worker, id: Id)
    requires Exclusive(s) && Timely(s) && Accounted(s) && Enabled(s, step) && s.Holds(d, id)
    requires (step.Write? || step.GiveUp?) ==> step.worker != d
    ensures id in s.rows && id in Apply(s, step).rows && Apply(s, step).rows[id] == s.rows[id]
  {
    hide Inserted, AcceptedIds, Accepts, TooLarge, OldestPending, Exclusive, Settled, Accounted;
    var w := if step.Write? || step.GiveUp? then step.worker else d;
    ExclusiveParts(s, d, w, id);
    match step {
      case Enqueue(_, _, _) => EnqueueKeeps(s, step, id);
      case Claim(_, _, _, _) => ClaimTakesFree(s, step, d, id);
      case _ =>
    }
  }

  /** The drainer whose step this is, and that gains or loses records by it. */
  predicate Acts(step: Step, d: Worker) {
    (step.Claim? || step.Write? || step.GiveUp? || step.Crash?) && step.worker == d
  }

  lemma LockedStep(s: System, step: Step, d: Worker)
    requires Exclusive(s) && Timely(s) && Accounted(s) && Enabled(s, step)
    ensures Locked(Apply(s, step), d)
  {
    hide Inserted, AcceptedIds, Accepts, TooLarge, OldestPending, Exclusive, Apart, Settled, Timely, Accounted;
    ExclusiveParts(s, d, d, 0);
    if !Acts(step, d) {
      LockedOther(s, step, d);
    } else if step.Claim? {
      PickedPresent(Reclaim(s.rows, step.readAt), step.limit, step.picked);
    }
  }

  lemma LockedOther(s: System, step: Step, d: Worker)
    requires Exclusive(s) && Timely(s) && Accounted(s) && Enabled(s, step) && !Acts(step, d)
    ensures Locked(Apply(s, step), d)
  {
    hide Exclusive, Timely, Accounted, Enabled, Apply;
    ExclusiveParts(s, d, d, 0);
    forall id | s.Holds(d, id) ensures id in s.rows && id in Apply(s, step).rows
        && Apply(s, step).rows[id] == s.rows[id] {
      HeldKept(s, step, d, id);
    }
    BatchKept(s, step, d);
    assert s.At(d).Working? ==> forall id :: id in s.At(d).batch ==> s.Holds(d, id);
  }

  lemma BatchKept(s: System, step: Step, d: Worker)
    requires Enabled(s, step) && !Acts(step, d)
    ensures var t := Apply(s, step);
            && t.At(d).Working? == s.At(d).Working?
            && (s.At(d).Working? ==> t.At(d).batch == s.At(d).batch && t.At(d).lease == s.At(d).lease)
  {
    hide Inserted, AcceptedIds, Accepts, TooLarge, OldestPending;
  }

  /** Only a claim gives a drainer records it did not hold. */
  lemma HeldBefore(s: System, step: Step, d: Worker, id: Id)
    requires Enabled(s, step) && Apply(s, step).Holds(d, id)
    ensures s.Holds(d, id) || (step.Claim? && step.worker == d && id in step.picked)
  {
    hide Inserted, AcceptedIds, Accepts, TooLarge, OldestPending;
    if step.Write? && step.worker == d {
      var k :| 0 <= k < |s.At(d).batch[1..]| && s.At(d).batch[1..][k] == id;
      assert s.At(d).batch[k + 1] == id;
    }
  }

  lemma ApartStep(s: System, step: Step, d: Worker, e: Worker)
    requires Exclusive(s) && Timely(s) && Accounted(s) && Enabled(s, step)
    ensures Apart(Apply(s, step), d, e)
  {
    hide Enabled, Apply, Exclusive, Accounted;
    ExclusiveParts(s, d, e, 0);
    ExclusiveParts(s, e, d, 0);
    if d != e {
      forall id | Apply(s, step).Holds(d, id) && Apply(s, step).Holds(e, id) ensures false {
        HeldBefore(s, step, d, id);
        HeldBefore(s, step, e, id);
        if step.Claim? {
          ClaimTakesFree(s, step, if step.worker == d then e else d, id);
        }
      }
    }
  }

  lemma CountedStep(s: System, step: Step, id: Id)
    requires Exclusive(s) && Accounted(s) && Enabled(s, step)
    ensures Counted(Apply(s, step), id)
  {
    hide Inserted, AcceptedIds, Accepts, TooLarge, Exclusive, Accounted, Owned;
    ExclusiveParts(s, 0, 0, id);
    match step {
      case Enqueue(_, _, _) => EnqueuedRow(s, step, id);
      case Claim(_, readAt, limit, picked) => PickedPresent(Reclaim(s.rows, readAt), limit, picked);
      case Write(w) => ExclusiveParts(s, w, w, id);
      case GiveUp(w) => ExclusiveParts(s, w, w, id);
      case _ =>
    }
  }

  /** A drainer lets go of a record only by writing its outcome, giving up or crashing. */
  lemma HeldAfter(s: System, step: Step, d: Worker, id: Id)
    requires Enabled(s, step) && s.Holds(d, id)
    ensures var t := Apply(s, step);
            || t.Holds(d, id)
            || (step.Write? && step.worker == d && id == s.At(d).batch[0])
            || (step.GiveUp? && step.worker == d)
            || (step.Crash? && step.worker == d && id in t.orphans)
  {
    hide Inserted, AcceptedIds, Accepts, TooLarge, OldestPending;
    if step.Write? && step.worker == d && id != s.At(d).batch[0] {
      var k :| 0 <= k < |s.At(d).batch| && s.At(d).batch[k] == id;
      assert s.At(d).batch[1..][k - 1] == id;
    }
  }

  /** A row in processing was so before, and unexpired, unless it has just been claimed. */
  lemma ProcessingBefore(s: System, step: Step, id: Id)
    requires Enabled(s, step) && id in Apply(s, step).rows && Apply(s, step).rows[id].state.Processing?
    ensures || (step.Claim? && id in step.picked)
            || (&& id in s.rows && s.rows[id].state.Processing? && (id in s.orphans ==> id in Apply(s, step).orphans)
                && !(step.Write? && id == s.At(step.worker).batch[0])
                && !(step.GiveUp? && id in s.At(step.worker).batch))
  {
    hide Inserted, AcceptedIds, Accepts, TooLarge, OldestPending;
    if step.Enqueue? {
      EnqueuedRow(s, step, id);
    }
  }

  lemma OwnedStep(s: System, step: Step, id: Id)
    requires Exclusive(s) && Enabled(s, step)
    ensures Owned(Apply(s, step), id)
  {
    hide Exclusive, Enabled;
    var t := Apply(s, step);
    if id in t.rows && t.rows[id].state.Processing? {
      ProcessingBefore(s, step, id);
      if step.Claim? && id in step.picked {
        assert t.Holds(step.worker, id);
      } else if id !in s.orphans {
        ExclusiveParts(s, 0, 0, id);
        var d :| s.Holds(d, id);
        HeldAfter(s, step, d, id);
      }
    }
  }

  lemma ExclusiveStep(s: System, step: Step)
    requires Exclusive(s) && Timely(s) && Accounted(s) && Enabled(s, step)
    ensures Exclusive(Apply(s, step))
  {
    hide Enabled, Apply, Accounted, Locked, Apart, Counted, Owned, Timely;
    forall d ensures Locked(Apply(s, step), d) { LockedStep(s, step, d); }
    forall d, e ensures Apart(Apply(s, step), d, e) { ApartStep(s, step, d, e); }
    forall id ensures Settled(Apply(s, step), id) {
      CountedStep(s, step, id);
      OwnedStep(s, step, id);
    }
  }

  /** Exclusion: as long as every drainer is done before its lease ends, no record is held by two, each
      is locked under its holder's lease, a dead letter has failed exactly ten times, and a row in
      processing is held or was left behind by a crash. */
  lemma {:induction false} Exclusion(states: seq<System>, steps: seq<Step>, k: nat)
    requires IsRun(states, steps) && k < |states| && forall j :: 0 <= j < k ==> Timely(states[j])
    ensures Exclusive(states[k])
  {
    hide Enabled, Apply, Accounted, Exclusive, Timely;
    if k == 0 {
      StartExclusive();
    } else {
      Exclusion(states, steps, k - 1);
      AtLeastOnce(states, steps, k - 1);
      ExclusiveStep(states[k - 1], steps[k - 1]);
    }
  }

  lemma StartExclusive()
    ensures Exclusive(START)
  {
  }

  /** No drainer holds a dead letter then, so nothing changes it any more. */
  lemma DeadLetterKept(s: System, step: Step, id: Id)
    requires Exclusive(s) && Accounted(s) && Enabled(s, step) && id in s.rows && s.rows[id].state.DeadLetter?
    ensures id in Apply(s, step).rows && Apply(s, step).rows[id] == s.rows[id]
  {
    hide Inserted, AcceptedIds, Accepts, TooLarge, Exclusive, Accounted, Owned, Counted;
    match step {
      case Enqueue(_, _, _) => EnqueueKeeps(s, step, id);
      case Claim(_, readAt, limit, picked) => PickedPresent(Reclaim(s.rows, readAt), limit, picked);
      case Write(w) => ExclusiveParts(s, w, w, id);
      case GiveUp(w) => ExclusiveParts(s, w, w, id);
      case _ =>
    }
  }

  /** `dead_letter` is absorbing in a timely run. */
  lemma {:induction false} DeadLetterAbsorbing(states: seq<System>, steps: seq<Step>, i: nat, k: nat, id: Id)
    requires IsRun(states, steps) && i <= k < |states| && forall j :: 0 <= j < k ==> Timely(states[j])
    requires id in states[i].rows && states[i].rows[id].state.DeadLetter?
    ensures id in states[k].rows && states[k].rows[id] == states[i].rows[id]
        && states[k].rows[id].attempts == MAX_FAILURES
  {
    hide Enabled, Apply, Accounted, Timely;
    Exclusion(states, steps, k);
    ExclusiveParts(states[k], 0, 0, id);
    if i < k {
      DeadLetterAbsorbing(states, steps, i, k - 1, id);
      Exclusion(states, steps, k - 1);
      AtLeastOnce(states, steps, k - 1);
      DeadLetterKept(states[k - 1], steps[k - 1], id);
    }
  }

  lemma OrphanStep(s: System, step: Step, id: Id)
    requires Enabled(s, step) && id in Apply(s, step).orphans
    ensures (id in s.orphans && s.orphans[id] == Apply(s, step).orphans[id])
        || step == Crash(Apply(s, step).orphans[id])
  {
    hide Inserted, AcceptedIds, Accepts, TooLarge, OldestPending;
  }

  /** Only a crash leaves an orphan behind. */
  lemma {:induction false} OrphansFromCrashes(states: seq<System>, steps: seq<Step>, k: nat, d: Worker)
    requires IsRun(states, steps) && k < |states| && forall j :: 0 <= j < k ==> steps[j] != Crash(d)
    ensures forall id :: id in states[k].orphans ==> states[k].orphans[id] != d
  {
    hide Enabled, Apply;
    if k > 0 {
      OrphansFromCrashes(states, steps, k - 1, d);
      forall id | id in states[k].orphans ensures states[k].orphans[id] != d {
        OrphanStep(states[k - 1], steps[k - 1], id);
      }
    }
  }

  /** A drainer that never crashed and is not at work holds nothing in processing: in a timely run such
      a row belongs to another drainer that is at work or crashed. */
  lemma DrainLeavesNothing(states: seq<System>, steps: seq<Step>, k: nat, d: Worker, id: Id)
    requires IsRun(states, steps) && k < |states| && forall j :: 0 <= j < k ==> Timely(states[j])
    requires states[k].At(d).Idle? && forall j :: 0 <= j < k ==> steps[j] != Crash(d)
    requires id in states[k].rows && states[k].rows[id].state.Processing?
    ensures || (id in states[k].orphans && states[k].orphans[id] != d)
            || exists e :: e != d && states[k].Holds(e, id)
  {
    hide Enabled, Apply, Timely;
    Exclusion(states, steps, k);
    OrphansFromCrashes(states, steps, k, d);
    ExclusiveParts(states[k], d, d, id);
    if id in states[k].orphans {
      assert states[k].orphans[id] != d;
    } else {
      var e :| states[k].Holds(e, id);
      assert e != d;
    }
  }

  /** At most ten failures are recorded of a record that no drainer overruns. */
  lemma {:induction false} FailuresBounded(states: seq<System>, steps: seq<Step>, k: nat, id: Id)
    requires IsRun(states, steps) && k < |states| && forall j :: 0 <= j < k ==> Timely(states[j])
    ensures states[k].failures[id] <= MAX_FAILURES
  {
    hide Enabled, Apply, Timely, Exclusive, Accounted;
    if k > 0 {
      FailuresBounded(states, steps, k - 1, id);
      Exclusion(states, steps, k - 1);
      AtLeastOnce(states, steps, k - 1);
      FailureStep(states[k - 1], steps[k - 1], id);
    }
  }

  lemma FailureStep(s: System, step: Step, id: Id)
    requires Exclusive(s) && Accounted(s) && Enabled(s, step) && s.failures[id] <= MAX_FAILURES
    ensures Apply(s, step).failures[id] <= MAX_FAILURES
  {
    hide Inserted, AcceptedIds, Accepts, TooLarge, OldestPending, Exclusive, Accounted, Owned;
    if step.Write? {
      ExclusiveParts(s, step.worker, step.worker, id);
      AccountedParts(s, id, step.worker);
    }
  }

  // -----------------------------------------------------------------------
  // Exactly once, but for crashes between a success and its delete

  /** Drainer `d` has replayed the record successfully and is about to delete it. */
  predicate SucceededBy(s: System, d: Worker, id: Id) {
    Heads(s, d, id) && s.At(d).stage.Succeeded?
  }

  /** The record is the one that drainer `d` is at. */
  predicate Heads(s: System, d: Worker, id: Id) {
    s.At(d).Working? && s.At(d).batch != [] && s.At(d).batch[0] == id
  }

  ghost predicate Finishing(s: System, id: Id) {
    exists d :: SucceededBy(s, d, id)
  }

  predicate Gone(s: System, id: Id) {
    id in s.enqueued && id !in s.rows
  }

  function One(b: bool): nat {
    if b then 1 else 0
  }

  /** The step forgets a success: the drainer crashes before it can delete the record. */
  predicate ForgetsSuccess(s: System, step: Step, id: Id) {
    step.Crash? && SucceededBy(s, step.worker, id)
  }

  function Forgotten(states: seq<System>, steps: seq<Step>, k: nat, id: Id): nat
    requires k <= |steps| && k <= |states|
  {
    if k == 0 then 0 else Forgotten(states, steps, k - 1, id) + One(ForgetsSuccess(states[k - 1], steps[k - 1], id))
  }

  /** One drainer's success, before and after a step. */
  lemma SuccessStep(s: System, step: Step, d: Worker, id: Id)
    requires Enabled(s, step)
    ensures SucceededBy(Apply(s, step), d, id) <==>
              || (step.Replay? && step.ok && step.worker == d && Heads(s, d, id))
              || (SucceededBy(s, d, id) && !((step.Write? || step.Crash?) && step.worker == d))
    ensures step.Replay? && step.worker == d ==> !SucceededBy(s, d, id)
    ensures SucceededBy(s, d, id) ==> Heads(s, d, id)
    ensures Heads(s, d, id) ==> s.Holds(d, id)
  {
    hide Inserted, AcceptedIds, Accepts, TooLarge, OldestPending;
  }

  /** The drainers that have replayed the record successfully and are about to delete it. */
  function Finishers(s: System, id: Id): set<Worker> {
    set d | d in s.drainers && SucceededBy(s, d, id)
  }

  /** The step deletes the record after a success; the row itself may be gone already. */
  predicate Deletes(s: System, step: Step, id: Id) {
    step.Write? && SucceededBy(s, step.worker, id)
  }

  function Deleted(states: seq<System>, steps: seq<Step>, k: nat, id: Id): nat
    requires k <= |steps| && k <= |states|
  {
    if k == 0 then 0 else Deleted(states, steps, k - 1, id) + One(Deletes(states[k - 1], steps[k - 1], id))
  }

  lemma FinisherExact(s: System, d: Worker, id: Id)
    ensures d in Finishers(s, id) <==> SucceededBy(s, d, id)
  {
  }

  lemma FinishersStep(s: System, step: Step, id: Id)
    requires Enabled(s, step)
    ensures |Finishers(Apply(s, step), id)| + One(Deletes(s, step, id)) + One(ForgetsSuccess(s, step, id))
         == |Finishers(s, id)| + One(step.Replay? && step.ok && Heads(s, step.worker, id))
  {
    hide Enabled, Apply, SucceededBy, Heads, Finishers;
    var t := Apply(s, step);
    var before, after := Finishers(s, id), Finishers(t, id);
    forall d
      ensures d in after <==>
                || (step.Replay? && step.ok && step.worker == d && Heads(s, d, id))
                || (d in before && !((step.Write? || step.Crash?) && step.worker == d))
      ensures d in before <==> SucceededBy(s, d, id)
      ensures step.Replay? && step.worker == d ==> d !in before
    {
      SuccessStep(s, step, d, id);
      FinisherExact(s, d, id);
      FinisherExact(t, d, id);
    }
    if step.Replay? && step.ok && Heads(s, step.worker, id) {
      assert after == before + {step.worker};
    } else if (step.Write? || step.Crash?) && step.worker in before {
      assert after == before - {step.worker};
    } else {
      assert after == before;
    }
  }

  /** Where the successes went, in every run whatsoever: each was forgotten in a crash, has led to a delete, or
      belongs to a drainer that is about to delete. */
  lemma {:induction false} EverySuccessAccounted(states: seq<System>, steps: seq<Step>, k: nat, id: Id)
    requires IsRun(states, steps) && k < |states|
    ensures states[k].replayed[id]
         == Forgotten(states, steps, k, id) + Deleted(states, steps, k, id) + |Finishers(states[k], id)|
  {
    hide Enabled, Apply, ForgetsSuccess, Deletes, Finishers;
    if k == 0 {
      NothingReplayed(id);
      assert Finishers(START, id) == {} by { NobodyFinishes(id); }
    } else {
      EverySuccessAccounted(states, steps, k - 1, id);
      SuccessCounted(states[k - 1], steps[k - 1], id);
      FinishersStep(states[k - 1], steps[k - 1], id);
    }
  }

  lemma NobodyFinishes(id: Id)
    ensures Finishers(START, id) == {}
  {
  }

  /** The steps that begin or end the state of having succeeded but not deleted. */
  lemma FinishingStep(s: System, step: Step, id: Id)
    requires Exclusive(s) && Enabled(s, step)
    ensures Finishing(Apply(s, step), id) <==>
              || (step.Replay? && step.ok && Heads(s, step.worker, id))
              || (Finishing(s, id) && !((step.Write? || step.Crash?) && SucceededBy(s, step.worker, id)))
    ensures step.Replay? && Heads(s, step.worker, id) ==> !Finishing(s, id)
  {
    hide Enabled, Apply, Exclusive, Locked, Settled, SucceededBy, Heads;
    var t := Apply(s, step);
    forall d, e | SucceededBy(s, d, id) && s.Holds(e, id) ensures d == e {
      ExclusiveParts(s, d, e, id);
      SuccessStep(s, step, d, id);
    }
    forall d
      ensures Heads(s, d, id) ==> s.Holds(d, id)
      ensures SucceededBy(s, d, id) ==> Heads(s, d, id)
      ensures SucceededBy(t, d, id) <==>
                || (step.Replay? && step.ok && step.worker == d && Heads(s, d, id))
                || (SucceededBy(s, d, id) && !((step.Write? || step.Crash?) && step.worker == d))
    {
      SuccessStep(s, step, d, id);
    }
    if step.Replay? {
      SuccessStep(s, step, step.worker, id);
    }
    if Finishing(s, id) {
      var d :| SucceededBy(s, d, id);
    }
    if step.Replay? && step.ok && Heads(s, step.worker, id) {
      assert SucceededBy(t, step.worker, id);
    }
  }

  /** The steps that take a record from the table. */
  lemma GoneStep(s: System, step: Step, id: Id)
    requires Exclusive(s) && Accounted(s) && Enabled(s, step)
    ensures Gone(Apply(s, step), id) <==> Gone(s, id) || (step.Write? && SucceededBy(s, step.worker, id))
    ensures step.Write? && SucceededBy(s, step.worker, id) ==> !Gone(s, id)
  {
    hide Inserted, AcceptedIds, Accepts, TooLarge, OldestPending, Exclusive, Accounted, Settled, Apart;
    match step {
      case Enqueue(_, _, _) =>
        EnqueuedRow(s, step, id);
      case Write(w) =>
        ExclusiveParts(s, w, w, id);
        AccountedParts(s, id, w);
      case _ =>
    }
  }

  lemma ReplayedStep(s: System, step: Step, id: Id)
    requires Exclusive(s) && Accounted(s) && Enabled(s, step)
    ensures var t := Apply(s, step);
            t.replayed[id] + One(Gone(s, id)) + One(Finishing(s, id))
            == s.replayed[id] + One(Gone(t, id)) + One(Finishing(t, id)) + One(ForgetsSuccess(s, step, id))
  {
    FinishingStep(s, step, id);
    GoneStep(s, step, id);
    SuccessCounted(s, step, id);
    hide Enabled, Apply, Exclusive, Accounted, Gone, SucceededBy, Heads;
    if (step.Write? || step.Crash?) && SucceededBy(s, step.worker, id) {
      assert Finishing(s, id);
    }
  }

  lemma SuccessCounted(s: System, step: Step, id: Id)
    requires Enabled(s, step)
    ensures Apply(s, step).replayed[id]
         == s.replayed[id] + One(step.Replay? && step.ok && Heads(s, step.worker, id))
  {
    hide Inserted, AcceptedIds, Accepts, TooLarge, OldestPending;
  }

  /** Where the successes went, in every timely run: each was forgotten in a crash, has removed the record, or
      is about to. */
  lemma {:induction false} SuccessesAccounted(states: seq<System>, steps: seq<Step>, k: nat, id: Id)
    requires IsRun(states, steps) && k < |states| && forall j :: 0 <= j < k ==> Timely(states[j])
    ensures states[k].replayed[id]
         == Forgotten(states, steps, k, id) + One(Gone(states[k], id)) + One(Finishing(states[k], id))
  {
    hide Enabled, Apply, Timely, Exclusive, Accounted, Gone, Finishing, ForgetsSuccess;
    if k == 0 {
      NothingReplayed(id);
    } else {
      SuccessesAccounted(states, steps, k - 1, id);
      Exclusion(states, steps, k - 1);
      AtLeastOnce(states, steps, k - 1);
      ReplayedStep(states[k - 1], steps[k - 1], id);
    }
  }

  lemma NothingReplayed(id: Id)
    ensures START.replayed[id] == 0 && !Gone(START, id) && !Finishing(START, id)
  {
  }

  /** A record that is gone is not being finished as well. */
  lemma GoneIsFinished(s: System, id: Id)
    requires Exclusive(s) && Gone(s, id)
    ensures !Finishing(s, id)
  {
    hide Exclusive, Settled, Apart;
    forall d ensures !SucceededBy(s, d, id) {
      ExclusiveParts(s, d, d, id);
    }
  }

  /** Exactly once, exactly when: in a timely run, whatever else crashes, a record that has left the table was
      replayed successfully once if and only if no crash fell between a success of it and its delete, and a
      second success of any record takes such a crash. */
  lemma ExactlyOnce(states: seq<System>, steps: seq<Step>, k: nat, id: Id)
    requires IsRun(states, steps) && k < |states| && forall j :: 0 <= j < k ==> Timely(states[j])
    ensures Gone(states[k], id) ==> (states[k].replayed[id] == 1 <==> Forgotten(states, steps, k, id) == 0)
    ensures states[k].replayed[id] >= 2 ==> Forgotten(states, steps, k, id) >= 1
    ensures Forgotten(states, steps, k, id) == 0 <==>
              forall j :: 0 <= j < k ==> !ForgetsSuccess(states[j], steps[j], id)
  {
    hide IsRun, Timely, Exclusive, Gone, Finishing, ForgetsSuccess;
    assert k <= |steps| by { RunLength(states, steps); }
    SuccessesAccounted(states, steps, k, id);
    Exclusion(states, steps, k);
    if Gone(states[k], id) {
      GoneIsFinished(states[k], id);
    }
    ForgottenNone(states, steps, k, id);
  }

  lemma RunLength(states: seq<System>, steps: seq<Step>)
    requires IsRun(states, steps)
    ensures |states| == |steps| + 1
  {
  }

  lemma {:induction false} ForgottenNone(states: seq<System>, steps: seq<Step>, k: nat, id: Id)
    requires k <= |steps| && k <= |states|
    ensures Forgotten(states, steps, k, id) == 0 <==>
              forall j :: 0 <= j < k ==> !ForgetsSuccess(states[j], steps[j], id)
  {
    hide ForgetsSuccess;
    if k > 0 {
      ForgottenNone(states, steps, k - 1, id);
    }
  }

  // -----------------------------------------------------------------------
  // Without timeliness

  /** Exactly which steps take a row out of `dead_letter`: a drainer that still holds it gives up, which
      makes it pending again, or removes it after a replay that succeeded after all. */
  lemma DeadLetterLost(s: System, step: Step, id: Id)
    requires Accounted(s) && Enabled(s, step) && id in s.rows && s.rows[id].state.DeadLetter?
    ensures var t := Apply(s, step);
            && (id !in t.rows <==>
                  step.Write? && s.At(step.worker).stage.Succeeded? && s.At(step.worker).batch[0] == id)
            && (id in t.rows && !t.rows[id].state.DeadLetter? <==> step.GiveUp? && id in s.At(step.worker).batch)
            && (id in t.rows && !t.rows[id].state.DeadLetter? ==> t.rows[id] == Released(s.rows[id]))
  {
    hide Inserted, AcceptedIds, Accepts, TooLarge, Accounted;
    AccountedParts(s, id, 0);
    match step {
      case Enqueue(_, _, _) => EnqueueKeeps(s, step, id);
      case Claim(_, readAt, limit, picked) => PickedPresent(Reclaim(s.rows, readAt), limit, picked);
      case _ =>
    }
  }

  /** The step takes the row out of `dead_letter`. */
  ghost predicate Revives(s: System, step: Step, id: Id)
    requires Enabled(s, step)
  {
    || (step.GiveUp? && id in s.At(step.worker).batch)
    || (step.Write? && SucceededBy(s, step.worker, id))
  }

  ghost predicate Dead(s: System, id: Id) {
    id in s.rows && s.rows[id].state.DeadLetter?
  }

  ghost predicate StaysDead(states: seq<System>, i: nat, n: nat, id: Id)
    requires n < |states|
  {
    forall k :: i <= k <= n ==> Dead(states[k], id)
  }

  ghost predicate NoneRevives(states: seq<System>, steps: seq<Step>, i: nat, n: nat, id: Id)
    requires IsRun(states, steps) && n < |states|
  {
    forall k :: i <= k < n ==> !Revives(states[k], steps[k], id)
  }

  /** Exactly when a dead letter stays dead, in any run: as long as no drainer that holds it gives up on it or
      deletes it after a late success. */
  lemma {:induction false} DeadLetterStaysExactly(states: seq<System>, steps: seq<Step>, i: nat, n: nat, id: Id)
    requires IsRun(states, steps) && i <= n < |states| && Dead(states[i], id)
    ensures StaysDead(states, i, n, id) <==> NoneRevives(states, steps, i, n, id)
  {
    hide Enabled, Apply, Accounted, SucceededBy;
    if i < n {
      DeadLetterStaysExactly(states, steps, i, n - 1, id);
      assert StaysDead(states, i, n, id) <==> StaysDead(states, i, n - 1, id) && Dead(states[n], id);
      assert NoneRevives(states, steps, i, n, id)
        <==> NoneRevives(states, steps, i, n - 1, id) && !Revives(states[n - 1], steps[n - 1], id);
      if StaysDead(states, i, n - 1, id) {
        assert Dead(states[n - 1], id);
        AtLeastOnce(states, steps, n - 1);
        DeadStep(states[n - 1], steps[n - 1], id);
      }
    }
  }

  lemma DeadStep(s: System, step: Step, id: Id)
    requires Accounted(s) && Enabled(s, step) && Dead(s, id)
    ensures Dead(Apply(s, step), id) <==> !Revives(s, step, id)
  {
    DeadLetterLost(s, step, id);
    hide Apply, Accounted;
  }

  ghost predicate Reachable(s: System) {
    exists states, steps :: IsRun(states, steps) && states[|steps|] == s
  }

  lemma ReachStep(s: System, step: Step)
    requires Reachable(s) && Enabled(s, step)
    ensures Reachable(Apply(s, step))
  {
    hide Enabled, Apply;
    var states, steps :| IsRun(states, steps) && states[|steps|] == s;
    var more, taken := states + [Apply(s, step)], steps + [step];
    assert IsRun(more, taken) && more[|taken|] == Apply(s, step);
  }

  function Only(attempts: nat, state: State, lockedUntil: Option<int>): Table {
    map[0 := Row("action_log", "{}", 0, attempts, state, lockedUntil)]
  }

  /** One record, no drainer at work, `n` failures so far. */
  predicate Waiting(s: System, n: nat) {
    && s.rows == Only(n, Pending, None) && s.At(0) == Idle && s.At(1) == Idle
    && s.clock == 0 && s.enqueued == {0} && s.replayed == multiset{}
  }

  /** A system that is reachable and whose one row has `n` failures and is in the given state. */
  ghost predicate Has(s: System, n: nat, state: State, lockedUntil: Option<int>) {
    Reachable(s) && s.rows == Only(n, state, lockedUntil)
  }

  predicate Busy(s: System, d: Worker) {
    s.At(d).Working? && s.At(d).batch == [0] && s.At(d).stage.Ready?
  }

  /** Nothing has happened but to the row and to drainer `d`. */
  ghost predicate SameElsewhere(s: System, t: System, d: Worker) {
    && t.clock == s.clock && t.enqueued == s.enqueued && t.replayed == s.replayed
    && forall e :: e != d ==> t.At(e) == s.At(e)
  }

  lemma ClaimOnly(s: System, d: Worker, n: nat, readAt: int)
    requires Reachable(s) && s.At(d) == Idle && readAt <= s.clock && Reclaim(s.rows, readAt) == Only(n, Pending, None)
    ensures Enabled(s, Claim(d, readAt, 1, [0]))
    ensures var t := Apply(s, Claim(d, readAt, 1, [0]));
            && Has(t, n, Processing, Some(readAt + CLAIM_LEASE_SECONDS)) && Busy(t, d)
            && SameElsewhere(s, t, d)
  {
    hide Reachable;
    assert PendingIds(Only(n, Pending, None)) == {0};
    ReachStep(s, Claim(d, readAt, 1, [0]));
  }

  /** A drainer that has claimed the record fails to replay it. */
  lemma FailOnly(s: System, d: Worker, n: nat, until: int)
    requires Has(s, n, Processing, Some(until)) && Busy(s, d)
    ensures Enabled(s, Replay(d, false)) && Enabled(Apply(s, Replay(d, false)), Write(d))
    ensures var t := Apply(Apply(s, Replay(d, false)), Write(d));
            && Has(t, n + 1, if n + 1 >= MAX_FAILURES then DeadLetter else Pending, None) && t.At(d) == Idle
            && SameElsewhere(s, t, d)
  {
    hide Reachable;
    ReachStep(s, Replay(d, false));
    ReachStep(Apply(s, Replay(d, false)), Write(d));
  }

  lemma FirstWaiting()
    ensures exists s :: Reachable(s) && Waiting(s, 0)
  {
    hide Text.Strip;
    var record := Record("action_log", Some("{}"));
    var add := Enqueue([record], [0], 0);
    assert Text.Strip("action_log") == "action_log" by { ActionLogStripped(); }
    assert IsRun([START], []);
    assert Enabled(START, add);
    ReachStep(START, add);
    var t := Apply(START, add);
    assert Inserted(map[], [record], [0], 0, 0) == map[];
    assert t.rows == Only(0, Pending, None);
    assert AcceptedIds([record], [0], 0) == {};
    assert AcceptedIds([record], [0], 1) == {0};
    assert t.enqueued == {0};
  }

  lemma ActionLogStripped()
    ensures Text.Strip("action_log") == "action_log"
  {
  }

  lemma {:induction false} FailTimes(n: nat)
    requires n < MAX_FAILURES
    ensures exists s :: Reachable(s) && Waiting(s, n)
  {
    hide Reachable, Apply, Enabled, Reclaim;
    if n == 0 {
      FirstWaiting();
    } else {
      FailTimes(n - 1);
      var s :| Reachable(s) && Waiting(s, n - 1);
      PendingStays(n - 1, 0);
      ClaimOnly(s, 0, n - 1, 0);
      var held := Apply(s, Claim(0, 0, 1, [0]));
      FailOnly(held, 0, n - 1, CLAIM_LEASE_SECONDS);
      assert Waiting(Apply(Apply(held, Replay(0, false)), Write(0)), n);
    }
  }

  lemma PendingStays(n: nat, now: int)
    ensures Reclaim(Only(n, Pending, None), now) == Only(n, Pending, None)
    ensures Reclaim(Only(n, Processing, Some(now)), now) == Only(n, Pending, None)
  {
  }

  /** `dead_letter` is not absorbing in general: when a lease runs out in mid-drain, a second drainer that
      claimed the same record can give up after the first has recorded the tenth failure, and the dead
      letter is pending again. */
  lemma DeadLetterCanReturn()
    ensures exists s, d :: Has(s, MAX_FAILURES, DeadLetter, None) && Enabled(s, GiveUp(d))
              && Apply(s, GiveUp(d)).rows == Only(MAX_FAILURES, Pending, None)
  {
    hide Reachable, Enabled, Apply, Reclaim;
    FailTimes(9);
    var s0 :| Reachable(s0) && Waiting(s0, 9);
    PendingStays(9, 0);
    ClaimOnly(s0, 0, 9, 0);
    var s1 := Apply(s0, Claim(0, 0, 1, [0]));
    LeaseEnds(s1, 30);
    var s2 := Apply(s1, Tick(30));
    PendingStays(9, 30);
    ClaimOnly(s2, 1, 9, 30);
    var s3 := Apply(s2, Claim(1, 30, 1, [0]));
    FailOnly(s3, 0, 9, 60);
    var s4 := Apply(Apply(s3, Replay(0, false)), Write(0));
    GiveUpOnly(s4, 1);
  }

  lemma LeaseEnds(s: System, to: int)
    requires Reachable(s) && s.clock <= to
    ensures Enabled(s, Tick(to)) && Reachable(Apply(s, Tick(to))) && Apply(s, Tick(to)) == s.(clock := to)
  {
    ReachStep(s, Tick(to));
  }

  lemma GiveUpOnly(s: System, d: Worker)
    requires s.rows == Only(MAX_FAILURES, DeadLetter, None) && Busy(s, d)
    ensures Enabled(s, GiveUp(d)) && Apply(s, GiveUp(d)).rows == Only(MAX_FAILURES, Pending, None)
  {
  }

  lemma CrashOnly(s: System, d: Worker)
    requires Reachable(s) && Busy(s, d)
    ensures var replay := Replay(d, true);
            && Enabled(s, replay) && Enabled(Apply(s, replay), Crash(d))
            && var t := Apply(Apply(s, replay), Crash(d));
               && Reachable(Apply(s, replay)) && Reachable(t) && t.rows == s.rows && t.clock == s.clock
               && t.replayed == Apply(s, replay).replayed == s.replayed + multiset{0}
               && forall e :: e != d ==> t.At(e) == s.At(e)
  {
    hide Reachable;
    ReachStep(s, Replay(d, true));
    ReachStep(Apply(s, Replay(d, true)), Crash(d));
  }

  /** With a crash a record can be replayed successfully twice: at least once is all that holds in general. */
  lemma CrashReplaysTwice()
    ensures exists s :: Reachable(s) && s.replayed[0] == 2
  {
    hide Reachable, Enabled, Apply, Reclaim;
    FirstWaiting();
    var s0 :| Reachable(s0) && Waiting(s0, 0);
    PendingStays(0, 0);
    ClaimOnly(s0, 0, 0, 0);
    var s1 := Apply(s0, Claim(0, 0, 1, [0]));
    CrashOnly(s1, 0);
    var s2 := Apply(Apply(s1, Replay(0, true)), Crash(0));
    LeaseEnds(s2, 30);
    var s3 := Apply(s2, Tick(30));
    PendingStays(0, 30);
    ClaimOnly(s3, 1, 0, 30);
    var s4 := Apply(s3, Claim(1, 30, 1, [0]));
    CrashOnly(s4, 1);
    assert Apply(s4, Replay(1, true)).replayed[0] == 2;
  }

  // -----------------------------------------------------------------------
  // A drainer left alone does what `Queue.Drain` does

  /** One record of a drain without interference: the replay and its write take the table from the method's
      state after `k` records to that after `k + 1`. */
  lemma SoloReplay(s: System, d: Worker, claimed: Table, picked: seq<Id>, replays: nat -> bool, k: nat, lease: int)
    requires k < |picked|
    requires s.At(d) == Working(picked[k..], lease, Ready) && s.rows == AfterReplays(claimed, picked, replays, k)
    ensures var replay := Replay(d, replays(k));
            && Enabled(s, replay) && Enabled(Apply(s, replay), Write(d))
            && var t := Apply(Apply(s, replay), Write(d));
               && t.rows == AfterReplays(claimed, picked, replays, k + 1)
               && t.At(d) == if k + 1 < |picked| then Working(picked[k + 1..], lease, Ready) else Idle
  {
    hide OldestPending, Inserted, TooLarge, Failed;
    assert picked[k..][0] == picked[k] && picked[k..][1..] == picked[k + 1..];
    var u := Apply(s, Replay(d, replays(k)));
    assert u.rows == s.rows && u.At(d) == Working(picked[k..], lease, if replays(k) then Succeeded else Refused);
  }

  /** Giving up ends as the method does when it is late. */
  lemma SoloGiveUp(s: System, d: Worker, claimed: Table, picked: seq<Id>, replays: nat -> bool, k: nat, lease: int)
    requires k < |picked|
    requires s.At(d) == Working(picked[k..], lease, Ready) && s.rows == AfterReplays(claimed, picked, replays, k)
    ensures Enabled(s, GiveUp(d)) && Apply(s, GiveUp(d)).At(d).Idle?
    ensures Apply(s, GiveUp(d)).rows == AfterDrain(claimed, picked, replays, k)
  {
  }

  /** The claim of a drainer is the method's claim. */
  lemma SoloClaim(s: System, d: Worker, readAt: int, limit: int, picked: seq<Id>)
    requires s.At(d).Idle? && readAt <= s.clock
    ensures Enabled(s, Step.Claim(d, readAt, limit, picked)) <==>
              exists t :: Claims(s.rows, readAt, limit, picked, t)
    ensures Enabled(s, Step.Claim(d, readAt, limit, picked)) ==>
              Claims(s.rows, readAt, limit, picked, Apply(s, Step.Claim(d, readAt, limit, picked)).rows)
  {
    var t := Lock(Reclaim(s.rows, readAt), picked, readAt + CLAIM_LEASE_SECONDS);
    hide OldestPending, Reclaim, Lock;
    if OldestPending(Reclaim(s.rows, readAt), limit, picked) {
      assert Claims(s.rows, readAt, limit, picked, t);
    }
  }

  /** `states` is what the system goes through from `from` when `steps` are taken one after another. */
  ghost predicate IsPath(from: System, states: seq<System>, steps: seq<Step>) {
    && |states| == |steps| + 1 && states[0] == from
    && forall k :: 0 <= k < |steps| ==> Enabled(states[k], steps[k]) && states[k + 1] == Apply(states[k], steps[k])
  }

  /** Some steps of drainer `d` alone lead from `s` to a state with this table and the drainer done. */
  ghost predicate LeadsTo(s: System, d: Worker, rows: Table) {
    exists states: seq<System>, steps: seq<Step> :: IsPath(s, states, steps) && ByDrainer(steps, d)
      && states[|steps|].rows == rows && states[|steps|].At(d).Idle?
  }

  predicate ByDrainer(steps: seq<Step>, d: Worker) {
    forall k :: 0 <= k < |steps| ==> !steps[k].Tick? && !steps[k].Enqueue? && steps[k].worker == d
  }

  lemma LeadsHere(s: System, d: Worker)
    requires s.At(d).Idle?
    ensures LeadsTo(s, d, s.rows)
  {
    var steps: seq<Step> := [];
    assert IsPath(s, [s], steps) && ByDrainer(steps, d) && [s][|steps|] == s;
  }

  lemma LeadsOneBack(s: System, step: Step, d: Worker, rows: Table)
    requires Enabled(s, step) && !step.Tick? && !step.Enqueue? && step.worker == d && LeadsTo(Apply(s, step), d, rows)
    ensures LeadsTo(s, d, rows)
  {
    hide Enabled, Apply;
    var states: seq<System>, steps: seq<Step> :| IsPath(Apply(s, step), states, steps) && ByDrainer(steps, d)
      && states[|steps|].rows == rows && states[|steps|].At(d).Idle?;
    var longer, more := [s] + states, [step] + steps;
    forall k | 0 <= k < |more| ensures Enabled(longer[k], more[k]) && longer[k + 1] == Apply(longer[k], more[k]) {
      if k > 0 {
        assert longer[k] == states[k - 1] && longer[k + 1] == states[k - 1 + 1] && more[k] == steps[k - 1];
      } else {
        assert longer[0] == s && longer[1] == states[0] && more[0] == step;
      }
    }
    assert longer[|more|] == states[|steps|];
    assert IsPath(s, longer, more) && ByDrainer(more, d);
  }

  lemma {:induction false} SoloRest(s: System, d: Worker, claimed: Table, picked: seq<Id>, replays: nat -> bool,
                                    k: nat, stop: nat, lease: int)
    requires k <= stop <= |picked|
    requires s.At(d) == if k < |picked| then Working(picked[k..], lease, Ready) else Idle
    requires s.rows == AfterReplays(claimed, picked, replays, k)
    ensures LeadsTo(s, d, AfterDrain(claimed, picked, replays, stop))
    decreases stop - k
  {
    hide Enabled, Apply, LeadsTo, AfterReplays;
    if k < stop {
      var replay := Replay(d, replays(k));
      SoloReplay(s, d, claimed, picked, replays, k, lease);
      SoloRest(Apply(Apply(s, replay), Write(d)), d, claimed, picked, replays, k + 1, stop, lease);
      LeadsOneBack(Apply(s, replay), Write(d), d, AfterDrain(claimed, picked, replays, stop));
      LeadsOneBack(s, replay, d, AfterDrain(claimed, picked, replays, stop));
    } else if k < |picked| {
      SoloGiveUp(s, d, claimed, picked, replays, k, lease);
      LeadsHere(Apply(s, GiveUp(d)), d);
      LeadsOneBack(s, GiveUp(d), d, AfterDrain(claimed, picked, replays, stop));
    } else {
      assert AfterDrain(claimed, picked, replays, stop) == s.rows;
      LeadsHere(s, d);
    }
  }

  /** Left alone, a drainer can do exactly what `Queue.Drain` does: for every batch that the queue may claim, every
      outcome of the replays and every point at which time runs out, its steps lead to the table of that drain. */
  lemma SoloDrain(s: System, d: Worker, readAt: int, limit: int, picked: seq<Id>, claimed: Table,
                  replays: nat -> bool, stop: nat)
    requires s.At(d).Idle? && readAt <= s.clock && Claims(s.rows, readAt, limit, picked, claimed) && stop <= |picked|
    ensures LeadsTo(s, d, AfterDrain(claimed, picked, replays, stop))
  {
    var claim := Claim(d, readAt, limit, picked);
    var t := Apply(s, claim);
    assert t.rows == claimed && picked[0..] == picked;
    hide LeadsTo, Apply, OldestPending;
    SoloRest(t, d, claimed, picked, replays, 0, stop, readAt + CLAIM_LEASE_SECONDS);
    LeadsOneBack(s, claim, d, AfterDrain(claimed, picked, replays, stop));
  }
}
