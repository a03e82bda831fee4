/** The daily tool quotas of services/tool_audit.py. */
module Quota {
  import opened Common
  import opened Calendars

  datatype Key = Key(tenant: string, tool: string, period: int)

  datatype Row = Row(calls: int, bytes: int, callLimit: Option<int>, byteLimit: Option<int>)

  type Table = map<Key, Row>

  /** Midnight, UTC, of the day of `now`. */
  function PeriodStart(now: int): int { now - now % DAY }

  datatype Decision = Decision(allowed: bool, row: Row, reason: string)

  datatype Step =
    | Consume(tenant: string, tool: string, bytes: int, now: int)
    | SetQuota(tenant: string, tool: string, callLimit: Option<int>, byteLimit: Option<int>, period: int)

  function KeyOf(step: Step): Key {
    match step
    case Consume(tenant, tool, _, now) => Key(tenant, tool, PeriodStart(now))
    case SetQuota(tenant, tool, _, _, period) => Key(tenant, tool, period)
  }

  const FRESH := Row(0, 0, None, None)

  /** The row of a key, as an insert with column defaults would find it. */
  function RowOf(t: Table, k: Key): Row { if k in t then t[k] else FRESH }

  /** What a step makes of the row of its key. */
  function Stepped(r: Row, step: Step): Row {
    match step
    case Consume(_, _, bytes, _) => r.(calls := r.calls + 1, bytes := r.bytes + bytes)
    case SetQuota(_, _, callLimit, byteLimit, _) => r.(callLimit := callLimit, byteLimit := byteLimit)
  }

  function Next(t: Table, step: Step): Table { t[KeyOf(step) := Stepped(RowOf(t, KeyOf(step)), step)] }

  predicate OverCalls(r: Row) { r.callLimit.Some? && r.calls > r.callLimit.value }

  predicate OverBytes(r: Row) { r.byteLimit.Some? && r.bytes > r.byteLimit.value }

  predicate Allowed(r: Row) { !OverCalls(r) && !OverBytes(r) }

  class QuotaTable {
    var rows: Table

    constructor ()
      ensures rows == map[]
    {
      rows := map[];
    }

    /** `consume_quota`: the upsert, then the verdict on the row it returns. */
    method ConsumeQuota(tenant: string, tool: string, bytes: int, now: int) returns (d: Decision)
      modifies this
      ensures rows == Next(old(rows), Consume(tenant, tool, bytes, now))
      ensures d.row == RowOf(rows, Key(tenant, tool, PeriodStart(now)))
      ensures d.allowed <==> Allowed(d.row)
      ensures d.reason == if Allowed(d.row) then "ok"
                          else if OverCalls(d.row) then "call_limit_exceeded" else "byte_limit_exceeded"
    {
      var k := Key(tenant, tool, PeriodStart(now));
      if k in rows {
        var r := rows[k];
        rows := rows[k := r.(calls := r.calls + 1, bytes := r.bytes + bytes)];
      } else {
        rows := rows[k := Row(1, bytes, None, None)];
      }
      var r := rows[k];
      var overCalls := r.callLimit.Some? && r.calls > r.callLimit.value;
      var overBytes := r.byteLimit.Some? && r.bytes > r.byteLimit.value;
      var allowed := !(overCalls || overBytes);
      var reason := if allowed then "ok" else if overCalls then "call_limit_exceeded" else "byte_limit_exceeded";
      d := Decision(allowed, r, reason);
    }

    method SetQuota(tenant: string, tool: string, callLimit: Option<int>, byteLimit: Option<int>, period: int)
      modifies this
      ensures rows == Next(old(rows), Step.SetQuota(tenant, tool, callLimit, byteLimit, period))
      ensures var k := Key(tenant, tool, period);
        k in rows && rows[k].callLimit == callLimit && rows[k].byteLimit == byteLimit
        && rows[k].calls == (if k in old(rows) then old(rows)[k].calls else 0)
        && rows[k].bytes == (if k in old(rows) then old(rows)[k].bytes else 0)
    {
      var k := Key(tenant, tool, period);
      if k in rows {
        rows := rows[k := rows[k].(callLimit := callLimit, byteLimit := byteLimit)];
      } else {
        rows := rows[k := Row(0, 0, callLimit, byteLimit)];
      }
    }
  }

  // ---------------------------------------------------------------- runs

  function At(t: Table, steps: seq<Step>, n: nat): Table
    requires n <= |steps|
  {
    if n == 0 then t else Next(At(t, steps, n - 1), steps[n - 1])
  }

  /** The row of `k` after the first `n` steps. */
  function RowAt(t: Table, steps: seq<Step>, n: nat, k: Key): Row
    requires n <= |steps|
  {
    RowOf(At(t, steps, n), k)
  }

  /** The steps on one key alone, folded into its row. */
  function Alone(r: Row, steps: seq<Step>, n: nat, k: Key): Row
    requires n <= |steps|
  {
    if n == 0 then r
    else
      var before := Alone(r, steps, n - 1, k);
      if KeyOf(steps[n - 1]) == k then Stepped(before, steps[n - 1]) else before
  }

  /** Tenants, tools and days never affect each other: a row is what its own steps alone make of it. */
  lemma {:induction false} KeysAreIndependent(t: Table, steps: seq<Step>, n: nat, k: Key)
    requires n <= |steps|
    ensures RowAt(t, steps, n, k) == Alone(RowOf(t, k), steps, n, k)
  {
    if n > 0 { KeysAreIndependent(t, steps, n - 1, k); }
  }

  /** The step asks for quota of this tenant and tool on the day that is the key's. */
  predicate Consumes(step: Step, k: Key) {
    step.Consume? && step.tenant == k.tenant && step.tool == k.tool && PeriodStart(step.now) == k.period
  }

  /** How many of the steps from `m` up to `n` consume on `k`. */
  function Consumed(steps: seq<Step>, m: nat, n: nat, k: Key): nat
    requires m <= n <= |steps|
  {
    if n == m then 0 else Consumed(steps, m, n - 1, k) + if Consumes(steps[n - 1], k) then 1 else 0
  }

  function BytesConsumed(steps: seq<Step>, m: nat, n: nat, k: Key): int
    requires m <= n <= |steps|
  {
    if n == m then 0
    else BytesConsumed(steps, m, n - 1, k) + if Consumes(steps[n - 1], k) then steps[n - 1].bytes else 0
  }

  /** The counters count: calls are the consume steps on the key, bytes their sum, denied or not. */
  lemma {:induction false} CountersCount(t: Table, steps: seq<Step>, m: nat, n: nat, k: Key)
    requires m <= n <= |steps|
    ensures RowAt(t, steps, n, k).calls == RowAt(t, steps, m, k).calls + Consumed(steps, m, n, k)
    ensures RowAt(t, steps, n, k).bytes == RowAt(t, steps, m, k).bytes + BytesConsumed(steps, m, n, k)
  {
    if m < n { CountersCount(t, steps, m, n - 1, k); }
  }

  predicate Sets(step: Step, k: Key) {
    step.SetQuota? && step.tenant == k.tenant && step.tool == k.tool && step.period == k.period
  }

  predicate LimitsLeftAlone(steps: seq<Step>, m: nat, n: nat, k: Key)
    requires m <= n <= |steps|
  {
    forall i :: m <= i < n ==> !Sets(steps[i], k)
  }

  lemma {:induction false} LimitsStay(t: Table, steps: seq<Step>, m: nat, n: nat, k: Key)
    requires m <= n <= |steps| && LimitsLeftAlone(steps, m, n, k)
    ensures RowAt(t, steps, n, k).callLimit == RowAt(t, steps, m, k).callLimit
    ensures RowAt(t, steps, n, k).byteLimit == RowAt(t, steps, m, k).byteLimit
  {
    if m < n { LimitsStay(t, steps, m, n - 1, k); }
  }

  /** What the last step that set the quota of `k` set, or what was there at first. */
  function CallLimit(t: Table, steps: seq<Step>, n: nat, k: Key): Option<int>
    requires n <= |steps|
  {
    if n == 0 then (if k in t then t[k].callLimit else None)
    else if Sets(steps[n - 1], k) then steps[n - 1].callLimit
    else CallLimit(t, steps, n - 1, k)
  }

  function ByteLimit(t: Table, steps: seq<Step>, n: nat, k: Key): Option<int>
    requires n <= |steps|
  {
    if n == 0 then (if k in t then t[k].byteLimit else None)
    else if Sets(steps[n - 1], k) then steps[n - 1].byteLimit
    else ByteLimit(t, steps, n - 1, k)
  }

  /** The limits of a key are those last set for it. */
  lemma {:induction false} LimitsAreLastSet(t: Table, steps: seq<Step>, n: nat, k: Key)
    requires n <= |steps|
    ensures RowAt(t, steps, n, k).callLimit == CallLimit(t, steps, n, k)
    ensures RowAt(t, steps, n, k).byteLimit == ByteLimit(t, steps, n, k)
  {
    if n > 0 { LimitsAreLastSet(t, steps, n - 1, k); }
  }

  /** How the counters of `k` stand before the first step: at zero for a new key. */
  function FirstCalls(t: Table, k: Key): int { if k in t then t[k].calls else 0 }

  function FirstBytes(t: Table, k: Key): int { if k in t then t[k].bytes else 0 }

  /** The limits last set leave room for one more call, and for its bytes. */
  predicate RoomFor(t: Table, steps: seq<Step>, n: nat, k: Key)
    requires n < |steps|
  {
    (CallLimit(t, steps, n, k).Some? ==>
       FirstCalls(t, k) + Consumed(steps, 0, n, k) < CallLimit(t, steps, n, k).value)
    && (ByteLimit(t, steps, n, k).Some? ==>
          FirstBytes(t, k) + BytesConsumed(steps, 0, n + 1, k) <= ByteLimit(t, steps, n, k).value)
  }

  /** In any run a call is granted exactly when the limits last set leave room for it, all calls counted that came
      before, granted or not. */
  lemma GrantedIffRoom(t: Table, steps: seq<Step>, n: nat, k: Key)
    requires n < |steps| && Consumes(steps[n], k)
    ensures Grants(t, steps, n, k) <==> RoomFor(t, steps, n, k)
  {
    CountersCount(t, steps, 0, n + 1, k);
    LimitsAreLastSet(t, steps, n + 1, k);
  }

  /** From the step that sets a call limit and no byte limit: exactly the first calls of the day up to that limit are
      granted. */
  lemma FirstCallsAfterSet(t: Table, steps: seq<Step>, s: nat, n: nat, k: Key)
    requires s < n < |steps| && Sets(steps[s], k) && LimitsLeftAlone(steps, s + 1, n, k) && Consumes(steps[n], k)
    requires steps[s].callLimit.Some? && steps[s].byteLimit == None
    ensures Grants(t, steps, n, k) <==> FirstCalls(t, k) + Consumed(steps, 0, n, k) < steps[s].callLimit.value
  {
    GrantedIffRoom(t, steps, n, k);
    LastSetStays(t, steps, s, n, k);
  }

  lemma {:induction false} LastSetStays(t: Table, steps: seq<Step>, s: nat, n: nat, k: Key)
    requires s < n <= |steps| && Sets(steps[s], k) && LimitsLeftAlone(steps, s + 1, n, k)
    ensures CallLimit(t, steps, n, k) == steps[s].callLimit && ByteLimit(t, steps, n, k) == steps[s].byteLimit
  {
    if s + 1 < n { LastSetStays(t, steps, s, n - 1, k); }
  }

  /** A denial lasts exactly until the limits are set again and leave room, byte amounts not being negative. */
  lemma DenialEndsIff(t: Table, steps: seq<Step>, m: nat, n: nat, k: Key)
    requires m < n < |steps| && Consumes(steps[m], k) && !Grants(t, steps, m, k) && Consumes(steps[n], k)
    requires forall i :: m < i <= n && Consumes(steps[i], k) ==> steps[i].bytes >= 0
    ensures Grants(t, steps, n, k)
       <==> RoomFor(t, steps, n, k) && exists i :: m < i < n && Sets(steps[i], k)
  {
    GrantedIffRoom(t, steps, n, k);
    if forall i :: m < i < n ==> !Sets(steps[i], k) {
      LimitsStay(t, steps, m + 1, n + 1, k);
      if OverCalls(RowAt(t, steps, m + 1, k)) { DenialIsPermanent(t, steps, m, n, k); }
      else { ByteDenialIsPermanent(t, steps, m, n, k); }
    }
  }

  /** The n-th step is a consume step on `k` that is allowed. */
  predicate Grants(t: Table, steps: seq<Step>, n: nat, k: Key)
    requires n < |steps|
  {
    Consumes(steps[n], k) && Allowed(RowAt(t, steps, n + 1, k))
  }

  function Granted(t: Table, steps: seq<Step>, m: nat, n: nat, k: Key): nat
    requires m <= n <= |steps|
  {
    if n == m then 0 else Granted(t, steps, m, n - 1, k) + if Grants(t, steps, n - 1, k) then 1 else 0
  }

  function Min(a: int, b: int): int { if a <= b then a else b }

  function Max(a: int, b: int): int { if a <= b then b else a }

  /** Under a call limit and no byte limit, exactly the first calls up to the limit are allowed. */
  lemma FirstCallsAllowed(t: Table, steps: seq<Step>, m: nat, n: nat, k: Key)
    requires m <= n < |steps| && LimitsLeftAlone(steps, m, n + 1, k) && Consumes(steps[n], k)
    requires RowAt(t, steps, m, k).callLimit.Some? && RowAt(t, steps, m, k).byteLimit == None
    ensures Grants(t, steps, n, k)
       <==> RowAt(t, steps, m, k).calls + Consumed(steps, m, n, k) < RowAt(t, steps, m, k).callLimit.value
  {
    CountersCount(t, steps, m, n + 1, k);
    LimitsStay(t, steps, m, n + 1, k);
  }

  /** So of a number of calls the smaller of that number and the room left is allowed. */
  lemma {:induction false} GrantedIsMin(t: Table, steps: seq<Step>, m: nat, n: nat, k: Key)
    requires m <= n <= |steps| && LimitsLeftAlone(steps, m, n, k)
    requires RowAt(t, steps, m, k).callLimit.Some? && RowAt(t, steps, m, k).byteLimit == None
    ensures var room := Max(0, RowAt(t, steps, m, k).callLimit.value - RowAt(t, steps, m, k).calls);
      Granted(t, steps, m, n, k) == Min(Consumed(steps, m, n, k), room)
  {
    if m < n {
      GrantedIsMin(t, steps, m, n - 1, k);
      if Consumes(steps[n - 1], k) { FirstCallsAllowed(t, steps, m, n - 1, k); }
    }
  }

  /** No step from `m` up to `n` lifts the call limit of `k` above `limit`. */
  predicate NoneLifts(steps: seq<Step>, m: nat, n: nat, k: Key, limit: int)
    requires m <= n <= |steps|
  {
    forall i :: m <= i < n && Sets(steps[i], k) ==> steps[i].callLimit.Some? && steps[i].callLimit.value <= limit
  }

  lemma {:induction false} OverCallsStays(t: Table, steps: seq<Step>, m: nat, n: nat, k: Key)
    requires m <= n <= |steps| && OverCalls(RowAt(t, steps, m, k))
    requires NoneLifts(steps, m, n, k, RowAt(t, steps, m, k).callLimit.value)
    ensures OverCalls(RowAt(t, steps, n, k))
    ensures RowAt(t, steps, n, k).callLimit.value <= RowAt(t, steps, m, k).callLimit.value
    ensures RowAt(t, steps, n, k).calls >= RowAt(t, steps, m, k).calls
  {
    if m < n { OverCallsStays(t, steps, m, n - 1, k); }
  }

  /** A denial for calls is permanent for its day until the limit is raised or cleared. */
  lemma DenialIsPermanent(t: Table, steps: seq<Step>, m: nat, n: nat, k: Key)
    requires m < n < |steps| && Consumes(steps[m], k) && OverCalls(RowAt(t, steps, m + 1, k))
    requires NoneLifts(steps, m + 1, n, k, RowAt(t, steps, m + 1, k).callLimit.value) && Consumes(steps[n], k)
    ensures !Grants(t, steps, n, k)
  {
    OverCallsStays(t, steps, m + 1, n, k);
  }

  /** A denial for bytes alone ends exactly when the bytes consumed since make up for the excess, which only
      negative amounts can do. */
  lemma ByteDenialEndsIff(t: Table, steps: seq<Step>, m: nat, n: nat, k: Key)
    requires m < n < |steps| && OverBytes(RowAt(t, steps, m + 1, k)) && RowAt(t, steps, m + 1, k).callLimit == None
    requires LimitsLeftAlone(steps, m + 1, n + 1, k) && Consumes(steps[n], k)
    ensures Grants(t, steps, n, k)
       <==> BytesConsumed(steps, m + 1, n + 1, k)
            <= RowAt(t, steps, m + 1, k).byteLimit.value - RowAt(t, steps, m + 1, k).bytes
  {
    CountersCount(t, steps, m + 1, n + 1, k);
    LimitsStay(t, steps, m + 1, n + 1, k);
  }

  /** No step from `m` up to `n` lifts the byte limit of `k` above `limit`, and none takes bytes back. */
  predicate NoneRelieves(steps: seq<Step>, m: nat, n: nat, k: Key, limit: int)
    requires m <= n <= |steps|
  {
    (forall i :: m <= i < n && Sets(steps[i], k) ==> steps[i].byteLimit.Some? && steps[i].byteLimit.value <= limit)
    && forall i :: m <= i < n && Consumes(steps[i], k) ==> steps[i].bytes >= 0
  }

  lemma {:induction false} OverBytesStays(t: Table, steps: seq<Step>, m: nat, n: nat, k: Key)
    requires m <= n <= |steps| && OverBytes(RowAt(t, steps, m, k))
    requires NoneRelieves(steps, m, n, k, RowAt(t, steps, m, k).byteLimit.value)
    ensures OverBytes(RowAt(t, steps, n, k))
    ensures RowAt(t, steps, n, k).byteLimit.value <= RowAt(t, steps, m, k).byteLimit.value
    ensures RowAt(t, steps, n, k).bytes >= RowAt(t, steps, m, k).bytes
  {
    if m < n { OverBytesStays(t, steps, m, n - 1, k); }
  }

  /** With byte amounts that are not negative, a denial for bytes is permanent too, until its limit is raised or
      cleared. */
  lemma ByteDenialIsPermanent(t: Table, steps: seq<Step>, m: nat, n: nat, k: Key)
    requires m < n < |steps| && OverBytes(RowAt(t, steps, m + 1, k)) && Consumes(steps[n], k)
    requires NoneRelieves(steps, m + 1, n + 1, k, RowAt(t, steps, m + 1, k).byteLimit.value)
    ensures !Grants(t, steps, n, k)
  {
    OverBytesStays(t, steps, m + 1, n + 1, k);
  }

  /** What the audit wrapper asks for: quota for a call of zero bytes. */
  predicate FromWrapper(step: Step) { step.Consume? ==> step.bytes == 0 }

  lemma {:induction false} WrapperMovesNoBytes(t: Table, steps: seq<Step>, m: nat, n: nat, k: Key)
    requires m <= n <= |steps| && forall i :: m <= i < n ==> FromWrapper(steps[i])
    ensures RowAt(t, steps, n, k).bytes == RowAt(t, steps, m, k).bytes
  {
    if m < n { WrapperMovesNoBytes(t, steps, m, n - 1, k); }
  }

  /** While only the wrapper consumes, the byte counter of a key never moves, and a call is over its byte limit
      exactly when that limit is below where the counter stood at first: on a new day, below zero. */
  lemma WrapperNeverCountsBytes(t: Table, steps: seq<Step>, m: nat, n: nat, k: Key)
    requires m <= n < |steps| && Consumes(steps[n], k) && forall i :: m <= i <= n ==> FromWrapper(steps[i])
    ensures RowAt(t, steps, n + 1, k).bytes == RowAt(t, steps, m, k).bytes
    ensures OverBytes(RowAt(t, steps, n + 1, k))
       <==> RowAt(t, steps, n + 1, k).byteLimit.Some?
            && RowAt(t, steps, n + 1, k).byteLimit.value < RowAt(t, steps, m, k).bytes
    ensures k !in At(t, steps, m) ==> RowAt(t, steps, n + 1, k).bytes == 0
  {
    WrapperMovesNoBytes(t, steps, m, n + 1, k);
  }

  /** Two instants share a period exactly when they fall on the same day. */
  lemma SamePeriodIff(a: int, b: int)
    ensures PeriodStart(a) == PeriodStart(b) <==> a / DAY == b / DAY
    ensures PeriodStart(a) <= a < PeriodStart(a) + 86_400_000_000 && PeriodStart(a) % 86_400_000_000 == 0
  {
    assert a == DAY * (a / DAY) + a % DAY && b == DAY * (b / DAY) + b % DAY;
  }
}
