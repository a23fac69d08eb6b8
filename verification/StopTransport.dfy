/** The cooperative stop transport: small files in one directory, each bound to one execution. */
module StopTransport {
  import opened Options
  import Text

  /** Whom a token is for; the six fields are compared as a whole. */
  datatype Context = Context(
    account: string, request: string, device: string, session: string, run: string, generation: string)

  datatype Suffix = Intent | Ack | Termination

  const SCHEMA := 1
  const ALLOWED_REASONS := {
    "scheduled_business_deadline", "follow_to_unfollow_time_handoff", "human_manual_stop",
    "dispatcher_watchdog", "deployment_shutdown", "control_plane_service_stop"}
  const TERMINATION_ORIGINS := {
    "human_manual_stop", "dispatcher_watchdog", "deployment_shutdown", "control_plane_service_stop"}

  /** A stored object. `stamp` is `requested_at`, or `None` when it is missing or cannot be parsed;
      `note` is what a caller adds: a deadline, or the phase and boundary of an acknowledgement. */
  datatype Payload = Payload(schema: int, binding: Context, reason: string, stamp: Option<int>, note: string)

  /** A file holds an object that can be read, or anything else. */
  datatype File = Unreadable | Stored(payload: Payload)

  type FileKey = string
  type Directory = map<(FileKey, Suffix), File>

  // -----------------------------------------------------------------------
  // File names

  const NUL := '\0'

  predicate NulFree(s: string) {
    NUL !in s
  }

  /** What the file key is a digest of: the six fields with NUL between them. */
  function Raw(c: Context): string {
    c.account + [NUL] + (c.request + [NUL] + (c.device + [NUL] + (c.session + [NUL] + (c.run + [NUL] + c.generation))))
  }

  predicate Plain(c: Context) {
    NulFree(c.account) && NulFree(c.request) && NulFree(c.device) && NulFree(c.session) && NulFree(c.run)
  }

  lemma FirstField(a: string, rest: string, b: string, tail: string)
    requires NulFree(a) && NulFree(b) && a + [NUL] + rest == b + [NUL] + tail
    ensures a == b && rest == tail
  {
    var whole := a + [NUL] + rest;
    assert whole[|a|] == NUL && whole[|b|] == NUL;
    assert forall i :: 0 <= i < |a| ==> whole[i] == a[i] != NUL;
    assert forall i :: 0 <= i < |b| ==> whole[i] == b[i] != NUL;
    assert a == whole[..|a|] && b == whole[..|b|];
    assert rest == whole[|a| + 1..] && tail == whole[|b| + 1..];
  }

  /** Fields without NUL give different raw keys to different contexts. */
  lemma RawInjective(c: Context, d: Context)
    requires Plain(c) && Plain(d) && Raw(c) == Raw(d)
    ensures c == d
  {
    hide NulFree;
    var c4, d4 := c.run + [NUL] + c.generation, d.run + [NUL] + d.generation;
    var c3, d3 := c.session + [NUL] + c4, d.session + [NUL] + d4;
    var c2, d2 := c.device + [NUL] + c3, d.device + [NUL] + d3;
    var c1, d1 := c.request + [NUL] + c2, d.request + [NUL] + d2;
    FirstField(c.account, c1, d.account, d1);
    FirstField(c.request, c2, d.request, d2);
    FirstField(c.device, c3, d.device, d3);
    FirstField(c.session, c4, d.session, d4);
    FirstField(c.run, c.generation, d.run, d.generation);
  }

  function Nuls(s: string): nat {
    if s == "" then 0 else (if s[0] == NUL then 1 else 0) + Nuls(s[1..])
  }

  lemma {:induction false} NulsConcat(s: string, t: string)
    ensures Nuls(s + t) == Nuls(s) + Nuls(t)
  {
    if s == "" {
      assert s + t == t;
    } else {
      NulsConcat(s[1..], t);
      assert (s + t)[1..] == s[1..] + t;
    }
  }

  lemma {:induction false} NoNuls(s: string)
    ensures Nuls(s) == 0 <==> NulFree(s)
  {
    if s != "" {
      NoNuls(s[1..]);
      assert s == [s[0]] + s[1..];
    }
  }

  lemma NulsBetween(s: string, rest: string)
    ensures Nuls(s + [NUL] + rest) == Nuls(s) + 1 + Nuls(rest)
  {
    NulsConcat(s + [NUL], rest);
    NulsConcat(s, [NUL]);
    assert [NUL][1..] == "";
  }

  function FieldNuls(c: Context): nat {
    Nuls(c.account) + Nuls(c.request) + Nuls(c.device) + Nuls(c.session) + Nuls(c.run) + Nuls(c.generation)
  }

  lemma RawNuls(c: Context)
    ensures Nuls(Raw(c)) == FieldNuls(c) + 5
  {
    hide Nuls;
    var c4 := c.run + [NUL] + c.generation;
    var c3 := c.session + [NUL] + c4;
    var c2 := c.device + [NUL] + c3;
    var c1 := c.request + [NUL] + c2;
    NulsBetween(c.run, c.generation);
    NulsBetween(c.session, c4);
    NulsBetween(c.device, c3);
    NulsBetween(c.request, c2);
    NulsBetween(c.account, c1);
    assert Raw(c) == c.account + [NUL] + c1;
  }

  /** No field of the context contains NUL. */
  predicate AllPlain(c: Context) {
    Plain(c) && NulFree(c.generation)
  }

  lemma AllPlainCounts(c: Context)
    ensures AllPlain(c) <==> FieldNuls(c) == 0
  {
    NoNuls(c.account);
    NoNuls(c.request);
    NoNuls(c.device);
    NoNuls(c.session);
    NoNuls(c.run);
    NoNuls(c.generation);
    hide Nuls, NulFree;
  }

  lemma SplitAtNul(s: string) returns (before: string, after: string)
    requires !NulFree(s)
    ensures s == before + [NUL] + after
  {
    var i :| 0 <= i < |s| && s[i] == NUL;
    before, after := s[..i], s[i + 1..];
  }

  lemma Regroup(x: string, y: string, rest: string)
    ensures (x + [NUL] + y) + [NUL] + rest == x + [NUL] + (y + [NUL] + rest)
  {
  }

  /** What follows a field in the raw key. */
  function AfterSession(c: Context): string {
    c.run + [NUL] + c.generation
  }

  function AfterDevice(c: Context): string {
    c.session + [NUL] + AfterSession(c)
  }

  function AfterRequest(c: Context): string {
    c.device + [NUL] + AfterDevice(c)
  }

  function AfterAccount(c: Context): string {
    c.request + [NUL] + AfterRequest(c)
  }

  lemma RawByTail(c: Context)
    ensures Raw(c) == c.account + [NUL] + AfterAccount(c)
  {
  }

  /** A context with NUL in one of its fields: the fields after it move by one. */
  lemma Collides(c: Context) returns (d: Context)
    requires !AllPlain(c)
    ensures d != c && Raw(d) == Raw(c)
  {
    var last := AfterSession(c);
    if !NulFree(c.account) {
      var x, y := SplitAtNul(c.account);
      d := Context(x, y, c.request, c.device, c.session, last);
      Regroup(x, y, AfterAccount(c));
    } else if !NulFree(c.request) {
      var x, y := SplitAtNul(c.request);
      d := Context(c.account, x, y, c.device, c.session, last);
      Regroup(x, y, AfterRequest(c));
    } else if !NulFree(c.device) {
      var x, y := SplitAtNul(c.device);
      d := Context(c.account, c.request, x, y, c.session, last);
      Regroup(x, y, AfterDevice(c));
    } else if !NulFree(c.session) {
      var x, y := SplitAtNul(c.session);
      d := Context(c.account, c.request, c.device, x, y, last);
      Regroup(x, y, AfterSession(c));
    } else if !NulFree(c.run) {
      var x, y := SplitAtNul(c.run);
      d := Context(c.account, c.request, c.device, c.session, x, y + [NUL] + c.generation);
      Regroup(x, y, c.generation);
    } else {
      var x, y := SplitAtNul(c.generation);
      d := Context(c.account, c.request, c.device, c.session, c.run + [NUL] + x, y);
      Regroup(c.run, x, y);
    }
    RawByTail(c);
    RawByTail(d);
    assert |d.generation| != |c.generation|;
  }

  /** Exactly which contexts share a raw key, and then their file names, with another one: those with NUL in some
      field. */
  lemma RawSharedExactly(c: Context)
    ensures (exists d :: d != c && Raw(d) == Raw(c)) <==> !AllPlain(c)
  {
    hide Raw, Plain, NulFree, FieldNuls;
    if AllPlain(c) {
      forall d | Raw(d) == Raw(c) ensures d == c {
        RawNuls(c);
        RawNuls(d);
        AllPlainCounts(c);
        AllPlainCounts(d);
        RawInjective(c, d);
      }
    } else {
      var d := Collides(c);
    }
  }

  // -----------------------------------------------------------------------
  // Reading and writing, as functions on the directory

  /** The digest of a raw key is a parameter: it may or may not be injective. */
  type Digest = string -> FileKey

  function ReadBound(digest: Digest, dir: Directory, c: Context, suffix: Suffix): Option<Payload> {
    var name := (digest(Raw(c)), suffix);
    if name in dir && dir[name].Stored? && dir[name].payload.schema == SCHEMA && dir[name].payload.binding == c
    then Some(dir[name].payload)
    else None
  }

  /** `read_stop` in a process whose scheduled session start is `begin`. */
  function ReadStop(digest: Digest, dir: Directory, begin: Option<int>, c: Context): Option<Payload> {
    var found := ReadBound(digest, dir, c, Intent);
    if found.None? || found.value.reason !in ALLOWED_REASONS || found.value.stamp.None? then None
    else if begin.Some? && found.value.stamp.value < begin.value then None
    else found
  }

  function ReadTerminationOrigin(digest: Digest, dir: Directory, signalOrigin: string, c: Option<Context>): string {
    var found := if c.Some? then ReadBound(digest, dir, c.value, Termination) else None;
    if found.Some? && found.value.reason != "" then found.value.reason
    else if Text.Strip(signalOrigin) == "control_plane_service_stop" then "control_plane_service_stop"
    else "human_manual_stop"
  }

  /** The reasons that a stop may have. */
  predicate IsStopReason(reason: string) {
    || reason == "scheduled_business_deadline" || reason == "follow_to_unfollow_time_handoff"
    || reason == "human_manual_stop" || reason == "dispatcher_watchdog"
    || reason == "deployment_shutdown" || reason == "control_plane_service_stop"
  }

  /** The reasons that may be recorded as the origin of a termination. */
  predicate IsOrigin(reason: string) {
    || reason == "human_manual_stop" || reason == "dispatcher_watchdog"
    || reason == "deployment_shutdown" || reason == "control_plane_service_stop"
  }

  lemma ReasonsExactly(reason: string)
    ensures reason in ALLOWED_REASONS <==> IsStopReason(reason)
    ensures reason in TERMINATION_ORIGINS <==> IsOrigin(reason)
  {
  }

  /** The file of the context holds this object. */
  predicate Holds(digest: Digest, dir: Directory, c: Context, suffix: Suffix, p: Payload) {
    (digest(Raw(c)), suffix) in dir && dir[(digest(Raw(c)), suffix)] == Stored(p)
  }

  /** Which stop a process reads: the one in the context's own file that is bound to the context, has one of the six
      reasons and a time, and was asked for no earlier than the session's start. */
  lemma ReadStopExactly(digest: Digest, dir: Directory, begin: Option<int>, c: Context, p: Payload)
    ensures ReadStop(digest, dir, begin, c) == Some(p)
       <==> && Holds(digest, dir, c, Intent, p) && p.schema == 1 && p.binding == c
            && IsStopReason(p.reason) && p.stamp.Some? && (begin.Some? ==> begin.value <= p.stamp.value)
  {
    ReasonsExactly(p.reason);
    hide ALLOWED_REASONS, IsStopReason, Raw;
  }

  /** The origin that is read of a termination: the one recorded for the context; for want of it a signal of the control
      plane's service stop, and otherwise a stop by hand. */
  lemma OriginExactly(digest: Digest, dir: Directory, signal: string, c: Option<Context>, p: Payload)
    ensures c.Some? && Holds(digest, dir, c.value, Termination, p) && p.schema == 1 && p.binding == c.value
            && p.reason != "" ==>
              ReadTerminationOrigin(digest, dir, signal, c) == p.reason
    ensures (c.Some? ==> (forall q :: Holds(digest, dir, c.value, Termination, q) ==>
                            q.schema != 1 || q.binding != c.value || q.reason == "")) ==>
              ReadTerminationOrigin(digest, dir, signal, c)
              == if Text.Strip(signal) == "control_plane_service_stop" then "control_plane_service_stop"
                 else "human_manual_stop"
  {
    hide Raw, Text.Strip;
    if c.Some? && ReadBound(digest, dir, c.value, Termination).Some? {
      assert Holds(digest, dir, c.value, Termination, ReadBound(digest, dir, c.value, Termination).value);
    }
  }

  function Write(digest: Digest, dir: Directory, c: Context, suffix: Suffix, p: Payload): Directory {
    dir[(digest(Raw(c)), suffix) := Stored(p)]
  }

  function Remove(digest: Digest, dir: Directory, c: Context, suffixes: set<Suffix>): Directory {
    map name | name in dir && !(name.0 == digest(Raw(c)) && name.1 in suffixes) :: dir[name]
  }

  datatype Op =
    | RequestStop(context: Context, begin: Option<int>, reason: string, deadline: string, stamp: int)
    | Acknowledge(context: Context, begin: Option<int>, note: string)
    | ClearContext(context: Context)
    | ClearIntentAndAck(context: Context)
    | RecordTermination(context: Context, reason: string)

  /** Whether the operation is carried out or raises. */
  predicate Succeeds(digest: Digest, dir: Directory, op: Op) {
    match op
    case RequestStop(_, _, reason, _, _) => Text.Strip(reason) in ALLOWED_REASONS
    case Acknowledge(c, begin, _) => ReadStop(digest, dir, begin, c).Some?
    case ClearContext(_) => true
    case ClearIntentAndAck(_) => true
    case RecordTermination(_, reason) => reason in TERMINATION_ORIGINS
  }

  function Requested(op: Op): Payload
    requires op.RequestStop?
  {
    Payload(SCHEMA, op.context, Text.Strip(op.reason), Some(op.stamp), Text.Strip(op.deadline))
  }

  function Acknowledged(intent: Payload, c: Context, note: string): Payload {
    Payload(SCHEMA, c, intent.reason, intent.stamp, note)
  }

  /** The directory after an operation; one that raises leaves it alone. */
  function Apply(digest: Digest, dir: Directory, op: Op): Directory {
    if !Succeeds(digest, dir, op) then dir
    else
      match op
      case RequestStop(c, begin, _, _, _) =>
        if ReadStop(digest, dir, begin, c).Some? then dir else Write(digest, dir, c, Intent, Requested(op))
      case Acknowledge(c, begin, note) =>
        Write(digest, dir, c, Ack, Acknowledged(ReadStop(digest, dir, begin, c).value, c, note))
      case ClearContext(c) => Remove(digest, dir, c, {Intent, Ack, Termination})
      case ClearIntentAndAck(c) => Remove(digest, dir, c, {Intent, Ack})
      case RecordTermination(c, reason) => Write(digest, dir, c, Termination, Payload(SCHEMA, c, reason, None, ""))
  }

  // -----------------------------------------------------------------------
  // The directory in place

  datatype Result = Done(payload: Payload) | UnsupportedReason | IntentMissing | UnsupportedOrigin

  class ControlDirectory {
    const digest: Digest
    var files: Directory

    constructor (digest: Digest)
      ensures this.digest == digest && files == map[]
    {
      this.digest := digest;
      files := map[];
    }

    method RequestStop(c: Context, begin: Option<int>, reason: string, deadline: string, stamp: int) returns (r: Result)
      modifies this`files
      ensures files == Apply(digest, old(files), Op.RequestStop(c, begin, reason, deadline, stamp))
      ensures r.UnsupportedReason? <==> Text.Strip(reason) !in ALLOWED_REASONS
      ensures r.Done? || r.UnsupportedReason?
      ensures r.Done? ==> ReadBound(digest, files, c, Intent) == Some(r.payload)
      ensures ReadStop(digest, old(files), begin, c).Some? && r.Done? ==>
          Some(r.payload) == ReadStop(digest, old(files), begin, c)
    {
      hide Text.Strip;
      var reasonValue := Text.Strip(reason);
      if reasonValue !in ALLOWED_REASONS {
        return UnsupportedReason;
      }
      var existing := ReadStop(digest, files, begin, c);
      if existing.Some? {
        return Done(existing.value);
      }
      var payload := Payload(SCHEMA, c, reasonValue, Some(stamp), Text.Strip(deadline));
      files := files[(digest(Raw(c)), Intent) := Stored(payload)];
      return Done(payload);
    }

    method AcknowledgeStop(c: Context, begin: Option<int>, note: string) returns (r: Result)
      modifies this`files
      ensures files == Apply(digest, old(files), Acknowledge(c, begin, note))
      ensures r.Done? || r.IntentMissing?
      ensures r.IntentMissing? <==> ReadStop(digest, old(files), begin, c).None?
      ensures r.Done? ==> ReadBound(digest, files, c, Ack) == Some(r.payload)
    {
      var intent := ReadStop(digest, files, begin, c);
      if intent.None? {
        return IntentMissing;
      }
      var payload := Payload(SCHEMA, c, intent.value.reason, intent.value.stamp, note);
      files := files[(digest(Raw(c)), Ack) := Stored(payload)];
      return Done(payload);
    }

    method Clear(c: Context)
      modifies this`files
      ensures files == Apply(digest, old(files), ClearContext(c))
    {
      files := Remove(digest, files, c, {Intent});
      files := Remove(digest, files, c, {Ack});
      files := Remove(digest, files, c, {Termination});
    }

    method ClearForHandoff(c: Context)
      modifies this`files
      ensures files == Apply(digest, old(files), ClearIntentAndAck(c))
    {
      files := Remove(digest, files, c, {Intent});
      files := Remove(digest, files, c, {Ack});
    }

    method RecordOrigin(c: Context, reason: string) returns (r: Result)
      modifies this`files
      ensures files == Apply(digest, old(files), RecordTermination(c, reason))
      ensures r.Done? || r.UnsupportedOrigin?
      ensures r.Done? <==> reason in TERMINATION_ORIGINS
      ensures r.Done? ==> forall origin :: ReadTerminationOrigin(digest, files, origin, Some(c)) == reason
    {
      hide Text.Strip;
      if reason !in TERMINATION_ORIGINS {
        return UnsupportedOrigin;
      }
      var payload := Payload(SCHEMA, c, reason, None, "");
      files := files[(digest(Raw(c)), Termination) := Stored(payload)];
      return Done(payload);
    }
  }

  // -----------------------------------------------------------------------
  // One execution never sees another's token

  /** An operation on another context changes no read, unless the file names collide; and then a token can
      only disappear: whatever is read is a token of the reader's own context. */
  lemma OthersUntouched(digest: Digest, dir: Directory, op: Op, c: Context, suffix: Suffix)
    requires op.context != c
    ensures var before, after := ReadBound(digest, dir, c, suffix), ReadBound(digest, Apply(digest, dir, op), c,
        suffix);
            && (digest(Raw(op.context)) != digest(Raw(c)) ==> after == before)
            && (after == before || after == None)
            && (after.Some? ==> after.value.binding == c && after.value.schema == SCHEMA)
  {
    hide Text.Strip, Raw;
  }

  /** `clear_intent_and_ack` leaves the termination origin as proof; `clear_context` removes it too. */
  lemma ClearingAndOrigin(digest: Digest, dir: Directory, c: Context, suffix: Suffix)
    ensures ReadBound(digest, Apply(digest, dir, ClearIntentAndAck(c)), c, suffix)
         == if suffix.Termination? then ReadBound(digest, dir, c, Termination) else None
    ensures ReadBound(digest, Apply(digest, dir, ClearContext(c)), c, suffix) == None
  {
    hide Raw;
    assert suffix in {Intent, Ack, Termination};
  }

  // -----------------------------------------------------------------------
  // Runs

  function Run(digest: Digest, ops: seq<Op>, n: nat): Directory
    requires n <= |ops|
  {
    if n == 0 then map[] else Apply(digest, Run(digest, ops, n - 1), ops[n - 1])
  }

  predicate Clears(op: Op, c: Context) {
    (op.ClearContext? || op.ClearIntentAndAck?) && op.context == c
  }

  /** No operation on another context shares the file names of `c`. */
  predicate KeptApart(digest: Digest, ops: seq<Op>, c: Context) {
    forall k :: 0 <= k < |ops| && ops[k].context != c ==> digest(Raw(ops[k].context)) != digest(Raw(c))
  }

  /** Every session start that is consulted for `c` is at most `bound`, and every request for it is stamped no
      earlier. */
  predicate Stamped(ops: seq<Op>, c: Context, bound: int) {
    forall k :: 0 <= k < |ops| && ops[k].context == c ==>
      match ops[k]
      case RequestStop(_, begin, _, _, stamp) => begin.GetOr(bound) <= bound <= stamp
      case Acknowledge(_, begin, _) => begin.GetOr(bound) <= bound
      case _ => true
  }

  /** The stored intent, if any, is one that every process can read. */
  predicate IntentReadable(digest: Digest, dir: Directory, c: Context, bound: int) {
    var p := ReadBound(digest, dir, c, Intent);
    p.Some? ==> p.value.reason in ALLOWED_REASONS && p.value.stamp.Some? && p.value.stamp.value >= bound
  }

  lemma {:induction false} IntentsReadable(digest: Digest, ops: seq<Op>, n: nat, c: Context, bound: int)
    requires n <= |ops| && KeptApart(digest, ops, c) && Stamped(ops, c, bound)
    ensures IntentReadable(digest, Run(digest, ops, n), c, bound)
  {
    hide Text.Strip, Raw;
    if n > 0 {
      IntentsReadable(digest, ops, n - 1, c, bound);
      if ops[n - 1].context != c {
        OthersUntouched(digest, Run(digest, ops, n - 1), ops[n - 1], c, Intent);
      }
    }
  }

  /** A step that does not clear keeps the intent that is there. */
  lemma IntentKept(digest: Digest, dir: Directory, op: Op, c: Context, bound: int)
    requires KeptApart(digest, [op], c) && Stamped([op], c, bound) && IntentReadable(digest, dir, c, bound)
    requires !Clears(op, c) && ReadBound(digest, dir, c, Intent).Some?
    ensures ReadBound(digest, Apply(digest, dir, op), c, Intent) == ReadBound(digest, dir, c, Intent)
  {
    hide Text.Strip, Raw;
    assert op == [op][0];
    if op.context != c {
      OthersUntouched(digest, dir, op, c, Intent);
    }
  }

  /** The first reason stays: requests stamped at or after the session start never replace a stop that is
      there; only a clear of the same context removes it. */
  lemma {:induction false} FirstReasonStays(digest: Digest, ops: seq<Op>, i: nat, n: nat, c: Context, bound: int,
      begin: Option<int>)
    requires i <= n <= |ops| && KeptApart(digest, ops, c) && Stamped(ops, c, bound) && begin.GetOr(bound) <= bound
    requires ReadBound(digest, Run(digest, ops, i), c, Intent).Some? && forall k :: i <= k < n ==> !Clears(ops[k], c)
    ensures ReadStop(digest, Run(digest, ops, n), begin, c) == ReadBound(digest, Run(digest, ops, i), c, Intent)
    ensures ReadBound(digest, Run(digest, ops, n), c, Intent) == ReadBound(digest, Run(digest, ops, i), c, Intent)
  {
    hide Text.Strip, Raw, Apply;
    IntentsReadable(digest, ops, n, c, bound);
    if i < n {
      FirstReasonStays(digest, ops, i, n - 1, c, bound, begin);
      IntentsReadable(digest, ops, n - 1, c, bound);
      IntentKept(digest, Run(digest, ops, n - 1), ops[n - 1], c, bound);
    }
  }

  /** The request is carried out and does not find the stored stop readable: it has no time, or one before the
      requester's session start. */
  predicate Replaces(op: Op, c: Context, p: Payload) {
    && op.RequestStop? && op.context == c && Text.Strip(op.reason) in ALLOWED_REASONS
    && (p.stamp.None? || (op.begin.Some? && p.stamp.value < op.begin.value))
  }

  /** Whatever the directory: a request leaves the stop that it can read, and otherwise stores its own; and that
      one is readable exactly for readers whose session started no later than its time. */
  lemma RequestStores(digest: Digest, dir: Directory, op: Op, begin: Option<int>)
    requires op.RequestStop? && Succeeds(digest, dir, op)
    ensures var found, after := ReadStop(digest, dir, op.begin, op.context), Apply(digest, dir, op);
            && ReadBound(digest, after, op.context, Intent) == Some(found.GetOr(Requested(op)))
            && (found.None? ==>
                  ReadStop(digest, after, begin, op.context)
                  == if begin.Some? && op.stamp < begin.value then None else Some(Requested(op)))
    ensures var p := Requested(op);
            && p.reason == Text.Strip(op.reason) && IsStopReason(p.reason) && p.stamp == Some(op.stamp)
            && p.note == Text.Strip(op.deadline) && p.binding == op.context && p.schema == 1
  {
    ReasonsExactly(Text.Strip(op.reason));
    hide Text.Strip, Raw;
  }

  /** When a request replaces the stop that is stored: exactly when that stop carries no time or one before the
      requester's session start. */
  lemma RequestReplacesExactly(digest: Digest, dir: Directory, op: Op, p: Payload)
    requires op.RequestStop? && Succeeds(digest, dir, op)
    requires ReadBound(digest, dir, op.context, Intent) == Some(p) && p.reason in ALLOWED_REASONS
    ensures ReadBound(digest, Apply(digest, dir, op), op.context, Intent)
         == Some(if Replaces(op, op.context, p) then Requested(op) else p)
  {
    hide Text.Strip, Raw;
  }

  /** Every stop that is stored for a context in a run, names colliding or not, is one that was requested for it
      and not cleared since; and a reader sees it exactly when its session started no later than that request's
      time. */
  lemma {:induction false} IntentWasRequested(digest: Digest, ops: seq<Op>, n: nat, c: Context, begin: Option<int>)
    requires n <= |ops| && ReadBound(digest, Run(digest, ops, n), c, Intent).Some?
    ensures var p := ReadBound(digest, Run(digest, ops, n), c, Intent).value;
            && (exists k :: 0 <= k < n && Requests(ops[k], c, p) && forall j :: k < j < n ==> !Clears(ops[j], c))
            && p.binding == c && p.reason in ALLOWED_REASONS && p.stamp.Some?
            && ReadStop(digest, Run(digest, ops, n), begin, c)
            == if begin.Some? && p.stamp.value < begin.value then None else Some(p)
  {
    hide Text.Strip, Raw;
    var dir, op := Run(digest, ops, n - 1), ops[n - 1];
    if op.context == c && op.RequestStop? && Succeeds(digest, dir, op) && ReadStop(digest, dir, op.begin, c).None? {
      RequestStores(digest, dir, op, None);
      assert Requests(ops[n - 1], c, ReadBound(digest, Run(digest, ops, n), c, Intent).value);
    } else {
      IntentElsewhere(digest, dir, op, c);
      IntentWasRequested(digest, ops, n - 1, c, begin);
      var p := ReadBound(digest, dir, c, Intent).value;
      var k :| 0 <= k < n - 1 && Requests(ops[k], c, p) && forall j :: k < j < n - 1 ==> !Clears(ops[j], c);
      assert forall j :: k < j < n ==> !Clears(ops[j], c);
    }
  }

  /** The operation asks for this very stop. */
  predicate Requests(op: Op, c: Context, p: Payload) {
    && op.RequestStop? && op.context == c && IsStopReason(Text.Strip(op.reason))
    && p.reason == Text.Strip(op.reason) && p.stamp == Some(op.stamp) && p.note == Text.Strip(op.deadline)
  }

  /** Apart from a request that stores its own, an operation after which a stop is stored has not touched it. */
  lemma IntentElsewhere(digest: Digest, dir: Directory, op: Op, c: Context)
    requires ReadBound(digest, Apply(digest, dir, op), c, Intent).Some?
    requires !(op.context == c && op.RequestStop? && Succeeds(digest, dir, op)
               && ReadStop(digest, dir, op.begin, c).None?)
    ensures ReadBound(digest, dir, c, Intent) == ReadBound(digest, Apply(digest, dir, op), c, Intent)
    ensures !Clears(op, c)
  {
    hide Text.Strip, Raw;
    if op.context != c {
      OthersUntouched(digest, dir, op, c, Intent);
    } else if Clears(op, c) {
      ClearingAndOrigin(digest, dir, c, Intent);
    }
  }

  /** The operation leaves the stored stop as it is: it neither clears it nor puts another in its place. */
  predicate Keeps(op: Op, c: Context, p: Payload) {
    !Clears(op, c) && (Replaces(op, c, p) ==> Requested(op) == p)
  }

  lemma KeepsExactly(digest: Digest, dir: Directory, op: Op, c: Context, p: Payload)
    requires KeptApart(digest, [op], c) && ReadBound(digest, dir, c, Intent) == Some(p) && p.reason in ALLOWED_REASONS
    ensures ReadBound(digest, Apply(digest, dir, op), c, Intent) == Some(p) <==> Keeps(op, c, p)
  {
    hide Text.Strip, Raw;
    assert op == [op][0];
    if op.context != c {
      OthersUntouched(digest, dir, op, c, Intent);
    } else if op.RequestStop? && Succeeds(digest, dir, op) {
      RequestReplacesExactly(digest, dir, op, p);
    } else if Clears(op, c) {
      ClearingAndOrigin(digest, dir, c, Intent);
    }
  }

  predicate StaysStored(digest: Digest, ops: seq<Op>, i: nat, n: nat, c: Context, p: Payload)
    requires n <= |ops|
  {
    forall k :: i <= k <= n ==> ReadBound(digest, Run(digest, ops, k), c, Intent) == Some(p)
  }

  predicate AllKeep(ops: seq<Op>, i: nat, n: nat, c: Context, p: Payload)
    requires n <= |ops|
  {
    forall k :: i <= k < n ==> Keeps(ops[k], c, p)
  }

  /** Exactly when the first reason stays, in any run: a stored stop is still there, unchanged at every moment, if
      and only if no operation in between clears it, and every request in between whose session started after its
      time asks for the very same. */
  lemma {:induction false} FirstReasonStaysExactly(
      digest: Digest, ops: seq<Op>, i: nat, n: nat, c: Context, p: Payload)
    requires i <= n <= |ops| && KeptApart(digest, ops, c)
    requires ReadBound(digest, Run(digest, ops, i), c, Intent) == Some(p)
    ensures StaysStored(digest, ops, i, n, c, p) <==> AllKeep(ops, i, n, c, p)
  {
    if i < n {
      FirstReasonStaysExactly(digest, ops, i, n - 1, c, p);
      StaysOneMore(digest, ops, i, n, c, p);
      KeepOneMore(ops, i, n, c, p);
      if StaysStored(digest, ops, i, n - 1, c, p) {
        assert ReadBound(digest, Run(digest, ops, n - 1), c, Intent) == Some(p);
        IntentWasRequested(digest, ops, n - 1, c, None);
        KeepsExactly(digest, Run(digest, ops, n - 1), ops[n - 1], c, p);
      }
      hide StaysStored, AllKeep, Keeps, ReadBound, Apply, Raw, Text.Strip;
    }
  }

  lemma StaysOneMore(digest: Digest, ops: seq<Op>, i: nat, n: nat, c: Context, p: Payload)
    requires i < n <= |ops|
    ensures StaysStored(digest, ops, i, n, c, p) <==>
              StaysStored(digest, ops, i, n - 1, c, p) && ReadBound(digest, Run(digest, ops, n), c, Intent) == Some(p)
  {
    hide ReadBound, Run;
  }

  lemma KeepOneMore(ops: seq<Op>, i: nat, n: nat, c: Context, p: Payload)
    requires i < n <= |ops|
    ensures AllKeep(ops, i, n, c, p) <==> AllKeep(ops, i, n - 1, c, p) && Keeps(ops[n - 1], c, p)
  {
    hide Keeps;
  }

  /** A recorded termination origin is what is read until its context is cleared or another is recorded; a clear
      for a handoff does not touch it. */
  lemma {:induction false} OriginStays(digest: Digest, ops: seq<Op>, i: nat, n: nat, c: Context, signal: string)
    requires i < n <= |ops| && KeptApart(digest, ops, c)
    requires ops[i].RecordTermination? && ops[i].context == c && ops[i].reason in TERMINATION_ORIGINS
    requires forall k :: i < k < n && ops[k].context == c ==> !ops[k].ClearContext? && !ops[k].RecordTermination?
    ensures ReadTerminationOrigin(digest, Run(digest, ops, n), signal, Some(c)) == ops[i].reason
    ensures ReadBound(digest, Run(digest, ops, n), c, Termination)
         == Some(Payload(SCHEMA, c, ops[i].reason, None, ""))
  {
    hide Text.Strip, Raw, ReadStop;
    if i < n - 1 {
      OriginStays(digest, ops, i, n - 1, c, signal);
      OriginKept(digest, Run(digest, ops, n - 1), ops[n - 1], c);
    }
  }

  lemma OriginKept(digest: Digest, dir: Directory, op: Op, c: Context)
    requires KeptApart(digest, [op], c)
    requires op.context == c ==> !op.ClearContext? && !op.RecordTermination?
    ensures ReadBound(digest, Apply(digest, dir, op), c, Termination) == ReadBound(digest, dir, c, Termination)
  {
    hide Text.Strip, Raw, ReadStop;
    assert op == [op][0];
    if op.context != c {
      OthersUntouched(digest, dir, op, c, Termination);
    } else if op.ClearIntentAndAck? {
      ClearingAndOrigin(digest, dir, c, Termination);
    }
  }

  /** Every acknowledgement carries the reason and the time of an intent that was readable when it was
      written, even when file names collide. */
  lemma {:induction false} AckHasIntent(digest: Digest, ops: seq<Op>, n: nat, c: Context)
    requires n <= |ops| && ReadBound(digest, Run(digest, ops, n), c, Ack).Some?
    ensures var ack := ReadBound(digest, Run(digest, ops, n), c, Ack).value;
            exists k :: && 0 <= k < n && ops[k].Acknowledge? && ops[k].context == c
                        && var intent := ReadStop(digest, Run(digest, ops, k), ops[k].begin, c);
                           intent.Some? && ack.reason == intent.value.reason && ack.stamp == intent.value.stamp
                           && ack.note == ops[k].note
  {
    hide Text.Strip, Raw, ReadStop;
    var dir, op := Run(digest, ops, n - 1), ops[n - 1];
    var ack := ReadBound(digest, Run(digest, ops, n), c, Ack);
    if op.context == c && op.Acknowledge? && Succeeds(digest, dir, op) {
      assert ReadStop(digest, Run(digest, ops, n - 1), ops[n - 1].begin, c).Some?;
    } else {
      if op.context != c {
        OthersUntouched(digest, dir, op, c, Ack);
      }
      AckHasIntent(digest, ops, n - 1, c);
    }
  }

  /** The acknowledgement that is there, if any, answers the intent that is there. */
  predicate Answers(digest: Digest, dir: Directory, c: Context) {
    var ack, intent := ReadBound(digest, dir, c, Ack), ReadBound(digest, dir, c, Intent);
    ack.Some? ==> intent.Some? && ack.value.reason == intent.value.reason && ack.value.stamp == intent.value.stamp
  }

  lemma AnswersStep(digest: Digest, dir: Directory, op: Op, c: Context, bound: int)
    requires KeptApart(digest, [op], c) && Stamped([op], c, bound) && IntentReadable(digest, dir, c, bound)
    requires Answers(digest, dir, c)
    ensures Answers(digest, Apply(digest, dir, op), c)
  {
    hide Text.Strip, Raw;
    assert op == [op][0];
    if op.context != c {
      OthersUntouched(digest, dir, op, c, Ack);
      OthersUntouched(digest, dir, op, c, Intent);
    }
  }

  /** As long as an acknowledgement is there, so is the intent it answers. */
  lemma {:induction false} AckMatchesIntent(digest: Digest, ops: seq<Op>, n: nat, c: Context, bound: int)
    requires n <= |ops| && KeptApart(digest, ops, c) && Stamped(ops, c, bound)
    ensures Answers(digest, Run(digest, ops, n), c)
  {
    hide Text.Strip, Raw, Apply, IntentReadable;
    if n > 0 {
      AckMatchesIntent(digest, ops, n - 1, c, bound);
      IntentsReadable(digest, ops, n - 1, c, bound);
      AnswersStep(digest, Run(digest, ops, n - 1), ops[n - 1], c, bound);
    }
  }
}
