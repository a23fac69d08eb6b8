/** The durable replay queue for deferred projections: one table, updated in place. */
module Outbox {
  import opened Options
  import Text

  const MAX_PAYLOAD_BYTES := 262144
  const CLAIM_LEASE_SECONDS := 30
  const MAX_FAILURES := 10
  const KINDS := {"supabase_step", "action_log"}

  type Id = nat

  datatype State = Pending | Processing | DeadLetter

  datatype Row = Row(kind: string, payload: string, created: int, attempts: nat, state: State, lockedUntil: Option<int>)

  type Table = map<Id, Row>

  /** A record offered to the queue; `payload` is the encoded dictionary, `None` when it is none. */
  datatype Record = Record(kind: string, payload: Option<string>)

  // -----------------------------------------------------------------------
  // The SQL statements, as functions on the table

  function Released(r: Row): Row {
    r.(state := Pending, lockedUntil := None)
  }

  function Failed(r: Row): Row {
    r.(state := if r.attempts + 1 >= MAX_FAILURES then DeadLetter else Pending,
       lockedUntil := None,
       attempts := r.attempts + 1)
  }

  predicate Expired(r: Row, now: int) {
    r.state.Processing? && r.lockedUntil.GetOr(0) <= now
  }

  /** Rows whose lease has run out go back to pending. */
  function Reclaim(t: Table, now: int): Table {
    map id | id in t :: if Expired(t[id], now) then Released(t[id]) else t[id]
  }

  function Lock(t: Table, ids: seq<Id>, until: int): Table {
    map id | id in t :: if id in ids then t[id].(state := Processing, lockedUntil := Some(until)) else t[id]
  }

  function Release(t: Table, ids: seq<Id>): Table {
    map id | id in t :: if id in ids then Released(t[id]) else t[id]
  }

  function Fail(t: Table, id: Id): Table {
    if id in t then t[id := Failed(t[id])] else t
  }

  function Delete(t: Table, id: Id): Table {
    t - {id}
  }

  function PendingIds(t: Table): set<Id> {
    set id | id in t && t[id].state.Pending?
  }

  function Batch(limit: int): nat {
    Max(1, Min(limit, 100))
  }

  predicate Distinct(ids: seq<Id>) {
    forall i, j :: 0 <= i < j < |ids| ==> ids[i] != ids[j]
  }

  /** A batch of the oldest pending rows: as many as the limit allows and there are, oldest first,
      none passed over for a younger one. */
  predicate OldestPending(t: Table, limit: int, picked: seq<Id>) {
    && Distinct(picked)
    && (forall i :: 0 <= i < |picked| ==> picked[i] in t && t[picked[i]].state.Pending?)
    && |picked| == Min(Batch(limit), |PendingIds(t)|)
    && (forall i, j :: 0 <= i < j < |picked| ==> t[picked[i]].created <= t[picked[j]].created)
    && (forall i, id :: 0 <= i < |picked| && id in PendingIds(t) && id !in picked ==>
        t[picked[i]].created <= t[id].created)
  }

  /** The whole claim transaction, read at `now`. */
  ghost predicate Claims(t: Table, now: int, limit: int, picked: seq<Id>, t': Table) {
    OldestPending(Reclaim(t, now), limit, picked) && t' == Lock(Reclaim(t, now), picked, now + CLAIM_LEASE_SECONDS)
  }

  // -----------------------------------------------------------------------
  // Enqueue

  predicate Accepts(r: Record) {
    Text.Strip(r.kind) in KINDS && r.payload.Some?
  }

  predicate TooLarge(r: Record) {
    Accepts(r) && |r.payload.value| > MAX_PAYLOAD_BYTES
  }

  function NewRow(r: Record, now: int): Row
    requires Accepts(r)
  {
    Row(Text.Strip(r.kind), r.payload.value, now, 0, Pending, None)
  }

  /** The table with the accepted ones of the first `n` records inserted, record `k` under `ids[k]`. */
  function Inserted(t: Table, records: seq<Record>, ids: seq<Id>, now: int, n: nat): Table
    requires n <= |records| == |ids|
  {
    if n == 0 then t
    else
      var before := Inserted(t, records, ids, now, n - 1);
      if Accepts(records[n - 1]) then before[ids[n - 1] := NewRow(records[n - 1], now)] else before
  }

  function AcceptedCount(records: seq<Record>, n: nat): nat
    requires n <= |records|
  {
    if n == 0 then 0 else AcceptedCount(records, n - 1) + if Accepts(records[n - 1]) then 1 else 0
  }

  /** The queue takes the record: it is of one of the two kinds and has a payload. */
  predicate Takes(r: Record) {
    r.payload.Some? && (Text.Strip(r.kind) == "supabase_step" || Text.Strip(r.kind) == "action_log")
  }

  /** The row holds what the record says. */
  predicate HoldsRecord(row: Row, r: Record, now: int) {
    row.kind == Text.Strip(r.kind) && Some(row.payload) == r.payload && row.created == now
  }

  /** The row has not been tried yet and is free. */
  predicate Untried(row: Row) {
    row.attempts == 0 && row.state == Pending && row.lockedUntil == None
  }

  lemma TakesExactly(r: Record, now: int)
    ensures Accepts(r) <==> Takes(r)
    ensures Accepts(r) ==> HoldsRecord(NewRow(r, now), r, now) && Untried(NewRow(r, now))
    ensures TooLarge(r) <==> Takes(r) && |r.payload.value| > 262144
  {
  }

  /** Under fresh, distinct ids every accepted record gets its own new row, which holds its kind and payload and is
      free and untried; and no other row changes. */
  lemma {:induction false} InsertedRows(t: Table, records: seq<Record>, ids: seq<Id>, now: int, n: nat)
    requires n <= |records| == |ids| && Distinct(ids) && forall k :: 0 <= k < |ids| ==> ids[k] !in t
    ensures var t' := Inserted(t, records, ids, now, n);
            && (forall id :: id in t ==> id in t' && t'[id] == t[id])
            && (forall k :: 0 <= k < n ==> (ids[k] in t' <==> Takes(records[k])))
            && (forall k :: 0 <= k < n && Takes(records[k]) ==>
                  HoldsRecord(t'[ids[k]], records[k], now) && Untried(t'[ids[k]]))
  {
    hide Text.Strip, Accepts, NewRow, Takes, HoldsRecord, Untried;
    if n > 0 {
      TakesExactly(records[n - 1], now);
      InsertedRows(t, records, ids, now, n - 1);
      InsertedElsewhere(t, records, ids, now, n - 1, n - 1);
    }
  }

  /** Exactly as many rows are added as records accepted. */
  lemma {:induction false} InsertedCount(t: Table, records: seq<Record>, ids: seq<Id>, now: int, n: nat)
    requires n <= |records| == |ids| && Distinct(ids) && forall k :: 0 <= k < |ids| ==> ids[k] !in t
    ensures |Inserted(t, records, ids, now, n)| == |t| + AcceptedCount(records, n)
  {
    hide Text.Strip, Accepts, NewRow;
    if n > 0 {
      InsertedCount(t, records, ids, now, n - 1);
      InsertedElsewhere(t, records, ids, now, n - 1, n - 1);
    }
  }

  lemma {:induction false} InsertedElsewhere(t: Table, records: seq<Record>, ids: seq<Id>, now: int, n: nat, k: nat)
    requires n <= k < |records| == |ids| && Distinct(ids) && ids[k] !in t
    ensures ids[k] !in Inserted(t, records, ids, now, n)
  {
    hide Text.Strip, Accepts, NewRow;
    if n > 0 {
      InsertedElsewhere(t, records, ids, now, n - 1, k);
    }
  }

  // -----------------------------------------------------------------------
  // Drain

  /** The table after the first `k` of the picked records have been replayed. */
  function AfterReplays(t: Table, picked: seq<Id>, replays: nat -> bool, k: nat): Table
    requires k <= |picked|
  {
    if k == 0 then t
    else
      var before := AfterReplays(t, picked, replays, k - 1);
      if replays(k - 1) then Delete(before, picked[k - 1]) else Fail(before, picked[k - 1])
  }

  function AfterDrain(t: Table, picked: seq<Id>, replays: nat -> bool, stop: nat): Table
    requires stop <= |picked|
  {
    Release(AfterReplays(t, picked, replays, stop), picked[stop..])
  }

  lemma {:induction false} UntouchedRow(t: Table, picked: seq<Id>, replays: nat -> bool, k: nat, id: Id)
    requires k <= |picked| && forall j :: 0 <= j < k ==> picked[j] != id
    ensures var t' := AfterReplays(t, picked, replays, k);
            (id in t' <==> id in t) && (id in t ==> t'[id] == t[id])
  {
    if k > 0 {
      UntouchedRow(t, picked, replays, k - 1, id);
    }
  }

  lemma {:induction false} ReplayedRow(t: Table, picked: seq<Id>, replays: nat -> bool, k: nat, p: nat)
    requires p < k <= |picked| && Distinct(picked) && picked[p] in t
    ensures var t' := AfterReplays(t, picked, replays, k);
            (picked[p] in t' <==> !replays(p)) && (!replays(p) ==> t'[picked[p]] == Failed(t[picked[p]]))
  {
    if p == k - 1 {
      UntouchedRow(t, picked, replays, k - 1, picked[p]);
    } else {
      ReplayedRow(t, picked, replays, k - 1, p);
    }
  }

  /** Kind, payload and creation time agree. */
  predicate SameRecord(a: Row, b: Row) {
    a.kind == b.kind && a.payload == b.payload && a.created == b.created
  }

  predicate IsFree(r: Row) {
    r.state == Pending && r.lockedUntil == None
  }

  /** The row as it was but for one more attempt; with ten it is dead, before that it is free. */
  predicate OneMoreFailure(before: Row, after: Row) {
    && SameRecord(before, after) && after.attempts == before.attempts + 1 && after.lockedUntil == None
    && after.state == if after.attempts >= 10 then DeadLetter else Pending
  }

  /** The row may be claimed at `now`: it is pending, or its lease has run out; one without an end has. */
  predicate Claimable(r: Row, now: int) {
    || r.state == Pending
    || (r.state == Processing && (if r.lockedUntil.Some? then r.lockedUntil.value else 0) <= now)
  }

  /** What a claim does, row by row: it takes claimable rows only and leases each for thirty seconds; it frees the rows
      whose lease has run out; it changes nothing else; and it passes over no row that is older than one it takes. */
  lemma ClaimedRow(t: Table, now: int, limit: int, picked: seq<Id>, t': Table, id: Id)
    requires Claims(t, now, limit, picked, t') && id in t
    ensures id in t' && SameRecord(t[id], t'[id]) && t'[id].attempts == t[id].attempts
    ensures id in picked ==>
              Claimable(t[id], now) && t'[id].state == Processing && t'[id].lockedUntil == Some(now + 30)
    ensures id !in picked && t[id].state == Processing && Claimable(t[id], now) ==> IsFree(t'[id])
    ensures id !in picked && !(t[id].state == Processing && Claimable(t[id], now)) ==> t'[id] == t[id]
    ensures id !in picked && Claimable(t[id], now) ==>
              forall p :: 0 <= p < |picked| ==> picked[p] in t && t[picked[p]].created <= t[id].created
  {
  }

  /** How many rows a claim takes: all there are, up to the limit, which is at least one and at most a hundred; they
      come oldest first and each once. */
  lemma ClaimedCount(t: Table, now: int, limit: int, picked: seq<Id>, t': Table)
    requires Claims(t, now, limit, picked, t')
    ensures var most := if limit < 1 then 1 else if limit > 100 then 100 else limit;
            var waiting := |set id | id in t && Claimable(t[id], now)|;
            |picked| == if waiting < most then waiting else most
    ensures forall p, q :: 0 <= p < q < |picked| ==>
              picked[p] != picked[q] && picked[p] in t && picked[q] in t && t[picked[p]].created <= t[picked[q]].created
    ensures t'.Keys == t.Keys
  {
    assert PendingIds(Reclaim(t, now)) == set id | id in t && Claimable(t[id], now);
  }

  /** What a drain does to its claimed rows: of the first `stop`, a row replayed successfully is gone
      and any other has one more failure; the rest are released as they were; nothing else changes,
      and none of the claimed rows is left in processing. */
  lemma DrainedRow(t: Table, picked: seq<Id>, replays: nat -> bool, stop: nat, id: Id)
    requires stop <= |picked| && Distinct(picked) && id in t
    ensures var t' := AfterDrain(t, picked, replays, stop);
            && (id !in picked ==> id in t' && t'[id] == t[id])
            && (id in picked && id in t' ==> !t'[id].state.Processing?)
            && (forall p :: 0 <= p < stop && picked[p] == id ==>
                  (id in t' <==> !replays(p)) && (!replays(p) ==> OneMoreFailure(t[id], t'[id])))
            && (forall p :: stop <= p < |picked| && picked[p] == id ==>
                  id in t' && SameRecord(t[id], t'[id]) && t'[id].attempts == t[id].attempts && IsFree(t'[id]))
  {
    if p: nat :| p < |picked| && picked[p] == id {
      if p < stop {
        ReplayedRow(t, picked, replays, stop, p);
        assert id !in picked[stop..];
      } else {
        UntouchedRow(t, picked, replays, stop, id);
        assert id == picked[stop..][p - stop];
      }
    } else {
      UntouchedRow(t, picked, replays, stop, id);
    }
  }

  datatype Summary = Summary(claimed: nat, succeeded: nat, failed: nat)

  class Queue {
    var rows: Table

    constructor ()
      ensures rows == map[]
    {
      rows := map[];
    }

    /** `enqueue`: all the accepted records or, when one of them is too large, nothing. */
    method Enqueue(records: seq<Record>, ids: seq<Id>, now: int) returns (enqueued: Option<nat>)
      requires |ids| == |records| && Distinct(ids) && forall k :: 0 <= k < |ids| ==> ids[k] !in rows
      modifies this
      ensures enqueued.None? <==> exists k :: 0 <= k < |records| && TooLarge(records[k])
      ensures enqueued.None? ==> rows == old(rows)
      ensures enqueued.Some? ==>
                && enqueued.value == AcceptedCount(records, |records|)
                && rows == Inserted(old(rows), records, ids, now, |records|)
                && (forall k :: 0 <= k < |records| ==> (ids[k] in rows <==> Takes(records[k])))
                && (forall k :: 0 <= k < |records| && Takes(records[k]) ==>
                      HoldsRecord(rows[ids[k]], records[k], now) && Untried(rows[ids[k]]))
    {
      var staged := rows;
      var count: nat := 0;
      for k := 0 to |records|
        invariant forall j :: 0 <= j < k ==> !TooLarge(records[j])
        invariant staged == Inserted(rows, records, ids, now, k)
        invariant count == AcceptedCount(records, k)
        invariant rows == old(rows)
      {
        hide Text.Strip;
        if !Accepts(records[k]) {
          continue;
        }
        if |records[k].payload.value| > MAX_PAYLOAD_BYTES {
          return None;
        }
        staged := staged[ids[k] := NewRow(records[k], now)];
        count := count + 1;
      }
      InsertedRows(rows, records, ids, now, |records|);
      rows := staged;
      return Some(count);
    }

    /** `_claim`: reclaim what has expired, then lock the oldest pending rows. */
    method Claim(limit: int, now: int) returns (picked: seq<Id>)
      modifies this
      ensures Claims(old(rows), now, limit, picked, rows)
    {
      rows := Reclaim(rows, now);
      var waiting := PendingIds(rows);
      picked := [];
      while |picked| < Batch(limit) && waiting != {}
        invariant rows == Reclaim(old(rows), now)
        invariant |picked| <= Batch(limit) && Picking(rows, waiting, picked)
      {
        hide Picking, Batch, Reclaim;
        var next := Oldest(rows, waiting) by { PickingWaits(rows, waiting, picked); }
        PickStep(rows, waiting, picked, next);
        waiting := waiting - {next};
        picked := picked + [next];
      }
      rows := Lock(rows, picked, now + CLAIM_LEASE_SECONDS);
    }

    /** `drain`: claim a batch and replay it record by record until the time budget is used up.
        `replays(k)` is whether the replay of the k-th claimed record succeeds, `late(k)` whether the
        budget is found used up just before it. */
    method Drain(limit: int, now: int, replays: nat -> bool, late: nat -> bool)
      returns (summary: Summary, ghost picked: seq<Id>, ghost claimed: Table, ghost stop: nat)
      modifies this
      ensures Claims(old(rows), now, limit, picked, claimed)
      ensures stop <= |picked| && (forall k :: 0 <= k < stop ==> !late(k)) && (stop < |picked| ==> late(stop))
      ensures rows == AfterDrain(claimed, picked, replays, stop)
      ensures summary == Summary(|picked|, Successes(replays, stop), stop - Successes(replays, stop))
    {
      hide Claims;
      var batch := Claim(limit, now);
      picked, claimed := batch, rows;
      var succeeded: nat, failed: nat := 0, 0;
      var k: nat := 0;
      while k < |batch|
        invariant k <= |batch|
        invariant forall j :: 0 <= j < k ==> !late(j)
        invariant succeeded == Successes(replays, k) && failed == k - Successes(replays, k)
        invariant rows == AfterReplays(claimed, batch, replays, k)
      {
        if late(k) {
          rows := Release(rows, batch[k..]);
          return Summary(|batch|, succeeded, failed), picked, claimed, k;
        }
        if replays(k) {
          succeeded := succeeded + 1;
          rows := Delete(rows, batch[k]);
        } else {
          failed := failed + 1;
          rows := Fail(rows, batch[k]);
        }
        k := k + 1;
      }
      assert AfterDrain(claimed, batch, replays, k) == rows;
      return Summary(|batch|, succeeded, failed), picked, claimed, k;
    }
  }

  function Successes(replays: nat -> bool, n: nat): (c: nat)
    ensures c <= n
  {
    if n == 0 then 0 else Successes(replays, n - 1) + if replays(n - 1) then 1 else 0
  }

  /** Part of the pending rows are picked, oldest first, and the others are still waiting. */
  ghost predicate Picking(t: Table, waiting: set<Id>, picked: seq<Id>) {
    && Distinct(picked)
    && (forall id :: id in PendingIds(t) <==> id in waiting || id in picked)
    && (forall i :: 0 <= i < |picked| ==> picked[i] !in waiting)
    && |picked| + |waiting| == |PendingIds(t)|
    && (forall i, j :: 0 <= i < j < |picked| ==> At(t, picked[i]) <= At(t, picked[j]))
    && (forall i, id :: 0 <= i < |picked| && id in waiting ==> At(t, picked[i]) <= At(t, id))
  }

  function At(t: Table, id: Id): int {
    if id in t then t[id].created else 0
  }

  lemma PickingWaits(t: Table, waiting: set<Id>, picked: seq<Id>)
    requires Picking(t, waiting, picked)
    ensures forall id :: id in waiting ==> id in t
  {
    assert forall id :: id in waiting ==> id in PendingIds(t);
  }

  lemma PickStep(t: Table, waiting: set<Id>, picked: seq<Id>, next: Id)
    requires Picking(t, waiting, picked) && next in waiting
    requires forall id :: id in waiting ==> id in t && next in t && t[next].created <= t[id].created
    ensures Picking(t, waiting - {next}, picked + [next])
  {
    hide PendingIds;
  }

  /** An id of a waiting row that is as old as any other. */
  method Oldest(t: Table, waiting: set<Id>) returns (oldest: Id)
    requires waiting != {} && forall id :: id in waiting ==> id in t
    ensures oldest in waiting && forall id :: id in waiting ==> t[oldest].created <= t[id].created
  {
    oldest :| oldest in waiting;
    var rest := waiting - {oldest};
    while rest != {}
      invariant rest <= waiting && oldest in waiting
      invariant forall id :: id in waiting && id !in rest ==> t[oldest].created <= t[id].created
      decreases rest
    {
      var id :| id in rest;
      if t[id].created < t[oldest].created {
        oldest := id;
      }
      rest := rest - {id};
    }
  }
}
