/** The anomaly table: upserts, direct inserts, acknowledgements and resolutions, each one atomic
    statement, as in services/anomaly_dedup.py. A row's id is its position in the table. */
module AnomalyDedup {
  import opened Common
  import Fingerprints

  datatype Row = Row(
    tenant: string, scope: string, kind: string, ts: int,
    severity: string, summary: string, metadata: Option<string>,
    fingerprint: Option<string>, firstSeen: Option<int>, lastSeen: Option<int>, count: int,
    acked: Option<Mark>, resolved: Option<Mark>)

  /** When a lifecycle column was set, and by which API key. */
  datatype Mark = Mark(at: int, apiKey: string)

  /** One detection, with the fingerprint of its condition. */
  datatype Finding = Finding(
    tenant: string, scope: string, kind: string, severity: string,
    summary: string, metadata: Option<string>, fp: string, now: int)

  /** A statement on the table. `Direct` is the insert of the detection loop, which leaves the
      fingerprint NULL. */
  datatype Step =
    | Record(f: Finding)
    | Direct(f: Finding)
    | Acknowledge(tenant: string, id: nat, mark: Mark)
    | Resolve(tenant: string, id: nat, mark: Mark)

  // ---------------------------------------------------------------- severities

  function Rank(severity: string): nat {
    match severity
    case "low" => 1
    case "medium" => 2
    case "high" => 3
    case "critical" => 4
    case _ => 0
  }

  function Escalated(current: string, latest: string): string {
    if Rank(current) >= Rank(latest) then current else latest
  }

  /** Low, medium, high, critical, and below them any other text. */
  lemma SeverityOrder(other: string)
    ensures Rank("low") < Rank("medium") < Rank("high") < Rank("critical")
    ensures other !in {"low", "medium", "high", "critical"} ==> Rank(other) < Rank("low")
    ensures Rank(other) <= Rank("critical") && (Rank(other) == Rank("critical") ==> other == "critical")
  {}

  // ---------------------------------------------------------------- the statements

  /** Covered by the partial unique index under (tenant, fp). */
  predicate Open(r: Row, tenant: string, fp: string) {
    r.tenant == tenant && r.fingerprint == Some(fp) && r.resolved.None?
  }

  /** The row an upsert for (tenant, fp) conflicts with, or the length of the table. */
  function Target(rows: seq<Row>, tenant: string, fp: string): (k: nat)
    ensures k <= |rows| && (k < |rows| ==> Open(rows[k], tenant, fp))
    ensures forall i :: 0 <= i < k ==> !Open(rows[i], tenant, fp)
  {
    if rows == [] then 0
    else
      var k := Target(rows[..|rows| - 1], tenant, fp);
      if k < |rows| - 1 || Open(rows[k], tenant, fp) then k else |rows|
  }

  function Opened(f: Finding): Row {
    Row(f.tenant, f.scope, f.kind, f.now, f.severity, f.summary, f.metadata,
        Some(f.fp), Some(f.now), Some(f.now), 1, None, None)
  }

  function Loose(f: Finding): Row {
    Row(f.tenant, f.scope, f.kind, f.now, f.severity, f.summary, f.metadata, None, None, None, 1, None, None)
  }

  function Bumped(r: Row, f: Finding): Row { Again(r, f.severity, f.summary, f.metadata, f.now) }

  /** The row after one more detection: what the conflict clause sets. */
  function Again(r: Row, severity: string, summary: string, metadata: Option<string>, now: int): (s: Row)
    ensures s.count == r.count + 1 && s.lastSeen == Some(now) && s.summary == summary && s.metadata == metadata
    ensures Rank(severity) <= Rank(r.severity) ==> s.severity == r.severity
    ensures Rank(severity) > Rank(r.severity) ==> s.severity == severity
    ensures s.tenant == r.tenant && s.scope == r.scope && s.kind == r.kind && s.ts == r.ts
    ensures s.fingerprint == r.fingerprint && s.firstSeen == r.firstSeen && s.acked == r.acked
    ensures s.resolved == r.resolved
  {
    r.(lastSeen := Some(now), count := r.count + 1, severity := Escalated(r.severity, severity),
       summary := summary, metadata := metadata)
  }

  function Recorded(rows: seq<Row>, f: Finding): seq<Row> {
    var k := Target(rows, f.tenant, f.fp);
    if k < |rows| then rows[k := Bumped(rows[k], f)] else rows + [Opened(f)]
  }

  predicate CanAck(rows: seq<Row>, tenant: string, id: nat) {
    id < |rows| && rows[id].tenant == tenant && rows[id].acked.None?
  }

  predicate CanResolve(rows: seq<Row>, tenant: string, id: nat) {
    id < |rows| && rows[id].tenant == tenant && rows[id].resolved.None?
  }

  function Applied(rows: seq<Row>, step: Step): seq<Row> {
    match step
    case Record(f) => Recorded(rows, f)
    case Direct(f) => rows + [Loose(f)]
    case Acknowledge(tenant, id, mark) =>
      if CanAck(rows, tenant, id) then rows[id := rows[id].(acked := Some(mark))] else rows
    case Resolve(tenant, id, mark) =>
      if CanResolve(rows, tenant, id) then rows[id := rows[id].(resolved := Some(mark))] else rows
  }

  /** At most one open row per tenant and fingerprint, and no row that counts nothing. */
  predicate Sound(rows: seq<Row>) {
    (forall i :: 0 <= i < |rows| ==> rows[i].count >= 1)
    && forall i, j :: 0 <= i < j < |rows| ==> !Clash(rows[i], rows[j])
  }

  predicate Clash(a: Row, b: Row) {
    a.fingerprint.Some? && Open(a, a.tenant, a.fingerprint.value) && Open(b, a.tenant, a.fingerprint.value)
  }

  lemma TargetIsOpenRow(rows: seq<Row>, tenant: string, fp: string, i: nat)
    requires Sound(rows) && i < |rows| && Open(rows[i], tenant, fp)
    ensures Target(rows, tenant, fp) == i
  {
    var k := Target(rows, tenant, fp);
    if k < i { assert Clash(rows[k], rows[i]); }
  }

  lemma AppliedKeepsSound(rows: seq<Row>, step: Step)
    requires Sound(rows)
    ensures Sound(Applied(rows, step))
  {
    var after := Applied(rows, step);
    forall i, j | 0 <= i < j < |after|
      ensures !Clash(after[i], after[j])
    {
      if j < |rows| { assert !Clash(rows[i], rows[j]); }
    }
  }

  datatype Reply = Reply(id: nat, isNew: bool, count: int)

  class AnomalyTable {
    var rows: seq<Row>

    constructor ()
      ensures rows == [] && Sound(rows)
    {
      rows := [];
    }

    /** `record_anomaly`: insert, or on conflict with the partial unique index update that row. */
    method RecordAnomaly(tenant: string, kind: string, severity: string, scope: string, summary: string,
                         cause: seq<(string, string)>, metadata: Option<string>, now: int)
      returns (reply: Reply)
      requires Sound(rows)
      modifies this
      ensures var f := Finding(tenant, scope, kind, severity, summary, metadata,
                               Fingerprints.FingerprintFor(tenant, kind, scope, cause), now);
        rows == Applied(old(rows), Record(f)) && reply.id == Target(old(rows), tenant, f.fp)
      ensures Sound(rows) && reply.id < |rows| && reply.count == rows[reply.id].count
      ensures reply.isNew <==> |rows| == |old(rows)| + 1
      ensures var fp := Fingerprints.FingerprintFor(tenant, kind, scope, cause);
        reply.isNew ==>
          rows == old(rows) + [Row(tenant, scope, kind, now, severity, summary, metadata, Some(fp), Some(now),
                                   Some(now), 1, None, None)]
      ensures var fp := Fingerprints.FingerprintFor(tenant, kind, scope, cause);
        !reply.isNew ==>
          reply.id < |old(rows)| && Open(old(rows)[reply.id], tenant, fp)
          && rows == old(rows)[reply.id := Again(old(rows)[reply.id], severity, summary, metadata, now)]
    {
      var f := Finding(tenant, scope, kind, severity, summary, metadata,
                       Fingerprints.FingerprintFor(tenant, kind, scope, cause), now);
      reply := Upsert(f);
    }

    method Upsert(f: Finding) returns (reply: Reply)
      requires Sound(rows)
      modifies this
      ensures rows == Applied(old(rows), Record(f)) && reply.id == Target(old(rows), f.tenant, f.fp)
      ensures Sound(rows) && reply.id < |rows| && reply.count == rows[reply.id].count
      ensures reply.isNew <==> |rows| == |old(rows)| + 1
    {
      AppliedKeepsSound(rows, Record(f));
      var id := |rows|;
      if i :| 0 <= i < |rows| && Open(rows[i], f.tenant, f.fp) {
        TargetIsOpenRow(rows, f.tenant, f.fp, i);
        rows := rows[i := Bumped(rows[i], f)];
        id := i;
      } else {
        rows := rows + [Opened(f)];
      }
      reply := Reply(id, rows[id].count == 1, rows[id].count);
    }

    /** The insert of `run_anomaly_detection`. */
    method InsertDirect(f: Finding)
      requires Sound(rows)
      modifies this
      ensures rows == Applied(old(rows), Direct(f)) && Sound(rows)
      ensures rows == old(rows) + [Row(f.tenant, f.scope, f.kind, f.now, f.severity, f.summary, f.metadata, None, None,
                                       None, 1, None, None)]
    {
      AppliedKeepsSound(rows, Direct(f));
      rows := rows + [Loose(f)];
    }

    method Acknowledge(tenant: string, id: nat, mark: Mark) returns (done: bool)
      requires Sound(rows)
      modifies this
      ensures rows == Applied(old(rows), Step.Acknowledge(tenant, id, mark)) && Sound(rows)
      ensures done <==> id < |old(rows)| && old(rows)[id].tenant == tenant && old(rows)[id].acked.None?
      ensures rows == if done then old(rows)[id := old(rows)[id].(acked := Some(mark))] else old(rows)
    {
      AppliedKeepsSound(rows, Step.Acknowledge(tenant, id, mark));
      done := id < |rows| && rows[id].tenant == tenant && rows[id].acked.None?;
      if done {
        rows := rows[id := rows[id].(acked := Some(mark))];
      }
    }

    method Resolve(tenant: string, id: nat, mark: Mark) returns (done: bool)
      requires Sound(rows)
      modifies this
      ensures rows == Applied(old(rows), Step.Resolve(tenant, id, mark)) && Sound(rows)
      ensures done <==> id < |old(rows)| && old(rows)[id].tenant == tenant && old(rows)[id].resolved.None?
      ensures rows == if done then old(rows)[id := old(rows)[id].(resolved := Some(mark))] else old(rows)
    {
      AppliedKeepsSound(rows, Step.Resolve(tenant, id, mark));
      done := id < |rows| && rows[id].tenant == tenant && rows[id].resolved.None?;
      if done {
        rows := rows[id := rows[id].(resolved := Some(mark))];
      }
    }
  }

  // ---------------------------------------------------------------- runs

  ghost predicate Moves(before: seq<Row>, step: Step, after: seq<Row>) { after == Applied(before, step) }

  /** `tables` are those before, between and after the statements, whatever was there at first. */
  ghost predicate IsRun(tables: seq<seq<Row>>, steps: seq<Step>) {
    |tables| == |steps| + 1 && Sound(tables[0])
    && forall i :: 0 <= i < |steps| ==> Moves(tables[i], steps[i], tables[i + 1])
  }

  lemma MovesKeepsSound(before: seq<Row>, step: Step, after: seq<Row>)
    requires Sound(before) && Moves(before, step, after)
    ensures Sound(after)
  {
    AppliedKeepsSound(before, step);
  }

  /** In every interleaving, at most one row per tenant and fingerprint is open. */
  lemma {:induction false} OneOpenAlways(tables: seq<seq<Row>>, steps: seq<Step>, n: nat)
    requires IsRun(tables, steps) && n <= |steps|
    ensures Sound(tables[n])
  {
    if n > 0 {
      OneOpenAlways(tables, steps, n - 1);
      MovesKeepsSound(tables[n - 1], steps[n - 1], tables[n]);
    }
  }

  /** `late` is `early` but for a possible acknowledgement. */
  predicate Frozen(early: Row, late: Row) { late.(acked := early.acked) == early }

  /** What no statement on a table ever changes in a row. */
  predicate Evolved(early: Row, late: Row) {
    late.tenant == early.tenant && late.fingerprint == early.fingerprint && late.firstSeen == early.firstSeen
    && late.scope == early.scope && late.kind == early.kind && late.ts == early.ts
    && (early.resolved.Some? ==> Frozen(early, late)) && (early.acked.Some? ==> late.acked == early.acked)
    && late.count >= early.count && Rank(late.severity) >= Rank(early.severity)
  }

  lemma AppliedEvolves(rows: seq<Row>, step: Step, id: nat)
    requires id < |rows|
    ensures id < |Applied(rows, step)| && Evolved(rows[id], Applied(rows, step)[id])
  {}

  /** Once resolved, a row keeps its count, severity, text and resolution for good; an acknowledgement
      stays too, and counts and severities never fall. */
  lemma {:induction false} RowsEvolve(tables: seq<seq<Row>>, steps: seq<Step>, m: nat, n: nat, id: nat)
    requires IsRun(tables, steps) && m <= n <= |steps| && id < |tables[m]|
    ensures id < |tables[n]| && Evolved(tables[m][id], tables[n][id])
  {
    if m < n {
      RowsEvolve(tables, steps, m, n - 1, id);
      assert Moves(tables[n - 1], steps[n - 1], tables[n]);
      AppliedEvolves(tables[n - 1], steps[n - 1], id);
    }
  }

  function TenantOf(step: Step): string {
    match step
    case Record(f) => f.tenant
    case Direct(f) => f.tenant
    case Acknowledge(tenant, _, _) => tenant
    case Resolve(tenant, _, _) => tenant
  }

  lemma AppliedIsolates(rows: seq<Row>, step: Step, id: nat)
    requires id < |rows| && rows[id].tenant != TenantOf(step)
    ensures id < |Applied(rows, step)| && Applied(rows, step)[id] == rows[id]
  {}

  /** Whatever other tenants do, in any run, a row stays exactly as it was. */
  lemma {:induction false} TenantsAreIsolated(tables: seq<seq<Row>>, steps: seq<Step>, m: nat, n: nat, id: nat)
    requires IsRun(tables, steps) && m <= n <= |steps| && id < |tables[m]|
    requires forall i :: m <= i < n ==> TenantOf(steps[i]) != tables[m][id].tenant
    ensures id < |tables[n]| && tables[n][id] == tables[m][id]
  {
    if m < n {
      TenantsAreIsolated(tables, steps, m, n - 1, id);
      assert Moves(tables[n - 1], steps[n - 1], tables[n]);
      AppliedIsolates(tables[n - 1], steps[n - 1], id);
    }
  }

  /** The n-th statement acknowledges row `id`: it is of the row's own tenant, and the first to do so. */
  predicate Acks(tables: seq<seq<Row>>, steps: seq<Step>, n: nat, id: nat)
    requires n < |steps| < |tables|
  {
    steps[n].Acknowledge? && steps[n].id == id
    && id < |tables[n]| && tables[n][id].tenant == steps[n].tenant && tables[n][id].acked.None?
  }

  /** The n-th statement resolves row `id`. */
  predicate Resolves(tables: seq<seq<Row>>, steps: seq<Step>, n: nat, id: nat)
    requires n < |steps| < |tables|
  {
    steps[n].Resolve? && steps[n].id == id
    && id < |tables[n]| && tables[n][id].tenant == steps[n].tenant && tables[n][id].resolved.None?
  }

  /** What one statement does to the lifecycle columns of a row. */
  lemma AppliedMarks(rows: seq<Row>, step: Step, id: nat)
    requires id < |rows|
    ensures id < |Applied(rows, step)|
    ensures Applied(rows, step)[id].acked
         == if step.Acknowledge? && step.id == id && rows[id].tenant == step.tenant && rows[id].acked.None?
            then Some(step.mark) else rows[id].acked
    ensures Applied(rows, step)[id].resolved
         == if step.Resolve? && step.id == id && rows[id].tenant == step.tenant && rows[id].resolved.None?
            then Some(step.mark) else rows[id].resolved
  {}

  /** A row bears a mark exactly when it did at first or its own tenant set it since, and then it is the mark of that
      statement. */
  lemma {:induction false} MarksAreSet(tables: seq<seq<Row>>, steps: seq<Step>, m: nat, n: nat, id: nat, mark: Mark)
    requires IsRun(tables, steps) && m <= n <= |steps| && id < |tables[m]|
    ensures id < |tables[n]|
    ensures tables[n][id].acked == Some(mark)
       <==> tables[m][id].acked == Some(mark)
            || exists i :: m <= i < n && Acks(tables, steps, i, id) && steps[i].mark == mark
    ensures tables[n][id].resolved == Some(mark)
       <==> tables[m][id].resolved == Some(mark)
            || exists i :: m <= i < n && Resolves(tables, steps, i, id) && steps[i].mark == mark
  {
    if m < n {
      MarksAreSet(tables, steps, m, n - 1, id, mark);
      assert Moves(tables[n - 1], steps[n - 1], tables[n]);
      AppliedMarks(tables[n - 1], steps[n - 1], id);
    }
  }

  /** Acknowledging succeeds at most once per row, and so does resolving. */
  lemma LifecycleOnce(tables: seq<seq<Row>>, steps: seq<Step>, m: nat, n: nat, id: nat)
    requires IsRun(tables, steps) && m < n < |steps|
    ensures Acks(tables, steps, m, id) ==> !Acks(tables, steps, n, id)
    ensures Resolves(tables, steps, m, id) ==> !Resolves(tables, steps, n, id)
  {
    assert Moves(tables[m], steps[m], tables[m + 1]);
    if Acks(tables, steps, m, id) || Resolves(tables, steps, m, id) {
      RowsEvolve(tables, steps, m + 1, n, id);
    }
  }

  // ---------------------------------------------------------------- one condition, by its history alone

  function OpenCount(rows: seq<Row>, tenant: string, fp: string): Option<int> {
    var k := Target(rows, tenant, fp);
    if k < |rows| then Some(rows[k].count) else None
  }

  predicate Of(f: Finding, tenant: string, fp: string) { f.tenant == tenant && f.fp == fp }

  predicate Closes(rows: seq<Row>, step: Step, tenant: string, fp: string) {
    step.Resolve? && step.tenant == tenant && step.id < |rows| && Open(rows[step.id], tenant, fp)
  }

  /** What a statement does to one condition. */
  datatype Effect = Nothing | Counts | Closed

  function EffectOn(rows: seq<Row>, step: Step, tenant: string, fp: string): Effect {
    if step.Record? && Of(step.f, tenant, fp) then Counts
    else if Closes(rows, step, tenant, fp) then Closed
    else Nothing
  }

  function Affected(before: Option<int>, effect: Effect): Option<int> {
    match effect
    case Nothing => before
    case Counts => Some(if before.Some? then before.value + 1 else 1)
    case Closed => None
  }

  /** The reference for one condition: closed, or open with a count of its detections. */
  function Tally(start: Option<int>, effects: seq<Effect>, n: nat): Option<int>
    requires n <= |effects|
  {
    if n == 0 then start else Affected(Tally(start, effects, n - 1), effects[n - 1])
  }

  /** What each statement of a run does to one condition. */
  function Effects(tables: seq<seq<Row>>, steps: seq<Step>, tenant: string, fp: string): seq<Effect>
    requires |tables| == |steps| + 1
  {
    seq(|steps|, i requires 0 <= i < |steps| => EffectOn(tables[i], steps[i], tenant, fp))
  }

  lemma {:induction false} CountsFollowEffects(counts: seq<Option<int>>, effects: seq<Effect>, n: nat)
    requires n <= |effects| && n < |counts|
    requires forall i :: 0 <= i < n ==> counts[i + 1] == Affected(counts[i], effects[i])
    ensures counts[n] == Tally(counts[0], effects, n)
  {
    if n > 0 { CountsFollowEffects(counts, effects, n - 1); }
  }

  lemma OpenCountAt(rows: seq<Row>, tenant: string, fp: string, k: nat)
    requires Sound(rows) && k < |rows| && Open(rows[k], tenant, fp)
    ensures OpenCount(rows, tenant, fp) == Some(rows[k].count)
  {
    TargetIsOpenRow(rows, tenant, fp, k);
  }

  lemma RecordedCounts(rows: seq<Row>, f: Finding)
    requires Sound(rows)
    ensures OpenCount(Recorded(rows, f), f.tenant, f.fp) == Affected(OpenCount(rows, f.tenant, f.fp), Counts)
  {
    AppliedKeepsSound(rows, Record(f));
    OpenCountAt(Recorded(rows, f), f.tenant, f.fp, Target(rows, f.tenant, f.fp));
  }

  /** A statement without effect on a condition opens no row for it and changes none that is open. */
  lemma NothingLeavesRow(rows: seq<Row>, step: Step, tenant: string, fp: string, i: nat)
    requires Sound(rows) && EffectOn(rows, step, tenant, fp) == Nothing && i < |Applied(rows, step)|
    ensures Open(Applied(rows, step)[i], tenant, fp) <==> i < |rows| && Open(rows[i], tenant, fp)
    ensures Open(Applied(rows, step)[i], tenant, fp) ==> Applied(rows, step)[i].count == rows[i].count
  {}

  lemma NothingLeavesCount(rows: seq<Row>, step: Step, tenant: string, fp: string)
    requires Sound(rows) && EffectOn(rows, step, tenant, fp) == Nothing
    ensures OpenCount(Applied(rows, step), tenant, fp) == OpenCount(rows, tenant, fp)
  {
    AppliedKeepsSound(rows, step);
    var after, k := Applied(rows, step), Target(rows, tenant, fp);
    if k < |rows| {
      AppliedEvolves(rows, step, k);
      NothingLeavesRow(rows, step, tenant, fp, k);
      OpenCountAt(after, tenant, fp, k);
    } else if Target(after, tenant, fp) < |after| {
      NothingLeavesRow(rows, step, tenant, fp, Target(after, tenant, fp));
    }
  }

  lemma AppliedTally(rows: seq<Row>, step: Step, tenant: string, fp: string)
    requires Sound(rows)
    ensures OpenCount(Applied(rows, step), tenant, fp)
      == Affected(OpenCount(rows, tenant, fp), EffectOn(rows, step, tenant, fp))
  {
    match EffectOn(rows, step, tenant, fp)
    case Counts => RecordedCounts(rows, step.f);
    case Closed => ClosedLeavesNone(rows, step, tenant, fp);
    case Nothing => NothingLeavesCount(rows, step, tenant, fp);
  }

  lemma ClosedLeavesNone(rows: seq<Row>, step: Step, tenant: string, fp: string)
    requires Sound(rows) && Closes(rows, step, tenant, fp)
    ensures OpenCount(Applied(rows, step), tenant, fp) == None
  {
    var after := Applied(rows, step);
    forall i | 0 <= i < |after|
      ensures !Open(after[i], tenant, fp)
    {
      if i != step.id && Open(after[i], tenant, fp) {
        TargetIsOpenRow(rows, tenant, fp, i);
        TargetIsOpenRow(rows, tenant, fp, step.id);
      }
    }
  }

  lemma OpenCountMoves(tables: seq<seq<Row>>, steps: seq<Step>, n: nat, tenant: string, fp: string)
    requires IsRun(tables, steps) && n < |steps|
    ensures OpenCount(tables[n + 1], tenant, fp)
         == Affected(OpenCount(tables[n], tenant, fp), EffectOn(tables[n], steps[n], tenant, fp))
  {
    OneOpenAlways(tables, steps, n);
    assert Moves(tables[n], steps[n], tables[n + 1]);
    AppliedTally(tables[n], steps[n], tenant, fp);
  }

  /** The table refines the reference: whether a condition is open, and with what count, follows from
      its own detections and resolutions, whatever else is interleaved. */
  lemma TableRefinesTally(tables: seq<seq<Row>>, steps: seq<Step>, n: nat, tenant: string, fp: string)
    requires IsRun(tables, steps) && n <= |steps|
    ensures OpenCount(tables[n], tenant, fp)
         == Tally(OpenCount(tables[0], tenant, fp), Effects(tables, steps, tenant, fp), n)
  {
    var effects := Effects(tables, steps, tenant, fp);
    var counts := seq(n + 1, i requires 0 <= i <= n => OpenCount(tables[i], tenant, fp));
    forall i | 0 <= i < n
      ensures counts[i + 1] == Affected(counts[i], effects[i])
    {
      OpenCountMoves(tables, steps, i, tenant, fp);
    }
    CountsFollowEffects(counts, effects, n);
  }

  lemma RecordedIff(rows: seq<Row>, f: Finding)
    ensures Recorded(rows, f) == rows + [Opened(f)] <==> OpenCount(rows, f.tenant, f.fp) == None
  {
    assert |rows + [Opened(f)]| == |rows| + 1;
  }

  /** An upsert opens a fresh row exactly when its condition is closed by its own history. */
  lemma FreshIff(tables: seq<seq<Row>>, steps: seq<Step>, n: nat)
    requires IsRun(tables, steps) && n < |steps| && steps[n].Record?
    ensures var f := steps[n].f;
      tables[n + 1] == tables[n] + [Row(f.tenant, f.scope, f.kind, f.now, f.severity, f.summary, f.metadata, Some(f.fp),
                                        Some(f.now), Some(f.now), 1, None, None)]
      <==> Tally(OpenCount(tables[0], f.tenant, f.fp), Effects(tables, steps, f.tenant, f.fp), n) == None
  {
    assert Moves(tables[n], steps[n], tables[n + 1]);
    TableRefinesTally(tables, steps, n, steps[n].f.tenant, steps[n].f.fp);
    RecordedIff(tables[n], steps[n].f);
  }

  lemma {:induction false} QuietStaysClosed(start: Option<int>, effects: seq<Effect>, m: nat, n: nat)
    requires m <= n <= |effects| && Tally(start, effects, m) == None
    requires forall i :: m <= i < n ==> effects[i] != Counts
    ensures Tally(start, effects, n) == None
  {
    if m < n { QuietStaysClosed(start, effects, m, n - 1); }
  }

  lemma {:induction false} OpenUntilClosed(start: Option<int>, effects: seq<Effect>, m: nat, n: nat)
    requires m < n <= |effects| && effects[m] == Counts && forall i :: m < i < n ==> effects[i] != Counts
    ensures Tally(start, effects, n).Some? <==> forall i :: m < i < n ==> effects[i] != Closed
  {
    if m + 1 < n { OpenUntilClosed(start, effects, m, n - 1); }
  }

  /** From its last detection on a condition is open exactly until its row is resolved. */
  lemma OpenUntilResolvedIff(tables: seq<seq<Row>>, steps: seq<Step>, m: nat, n: nat, tenant: string, fp: string)
    requires IsRun(tables, steps) && m < n <= |steps| && steps[m].Record? && Of(steps[m].f, tenant, fp)
    requires forall i :: m < i < n && steps[i].Record? ==> !Of(steps[i].f, tenant, fp)
    ensures OpenCount(tables[n], tenant, fp).Some?
       <==> forall i :: m < i < n ==> !Closes(tables[i], steps[i], tenant, fp)
  {
    var effects := Effects(tables, steps, tenant, fp);
    TableRefinesTally(tables, steps, n, tenant, fp);
    OpenUntilClosed(OpenCount(tables[0], tenant, fp), effects, m, n);
    assert forall i :: m < i < n ==> (effects[i] == Closed <==> Closes(tables[i], steps[i], tenant, fp));
  }

  /** The first recurrence after a resolution opens a fresh row. */
  lemma RecurrenceOpensFresh(tables: seq<seq<Row>>, steps: seq<Step>, m: nat, n: nat, id: nat, fp: string)
    requires IsRun(tables, steps) && m < n < |steps| && steps[n].Record?
    requires Resolves(tables, steps, m, id) && tables[m][id].fingerprint == Some(fp)
    requires Of(steps[n].f, steps[m].tenant, fp)
    requires forall i :: m < i < n && steps[i].Record? ==> !Of(steps[i].f, steps[m].tenant, fp)
    ensures var f := steps[n].f;
      tables[n + 1] == tables[n] + [Row(f.tenant, f.scope, f.kind, f.now, f.severity, f.summary, f.metadata, Some(f.fp),
                                        Some(f.now), Some(f.now), 1, None, None)]
  {
    var tenant := steps[m].tenant;
    assert EffectOn(tables[m], steps[m], tenant, fp) == Closed;
    QuietStaysClosed(OpenCount(tables[0], tenant, fp), Effects(tables, steps, tenant, fp), m + 1, n);
    FreshIff(tables, steps, n);
  }

  // ---------------------------------------------------------------- counts are conserved

  function Counted(r: Row, tenant: string, fp: string): int {
    if r.tenant == tenant && r.fingerprint == Some(fp) then r.count else 0
  }

  /** The counts of all rows of a condition, open and resolved. */
  function CountSum(rows: seq<Row>, tenant: string, fp: string): int {
    if rows == [] then 0 else CountSum(rows[..|rows| - 1], tenant, fp) + Counted(rows[|rows| - 1], tenant, fp)
  }

  /** How many of the first `n` statements record the condition. */
  function Detections(steps: seq<Step>, n: nat, tenant: string, fp: string): nat
    requires n <= |steps|
  {
    if n == 0 then 0
    else Detections(steps, n - 1, tenant, fp) + if steps[n - 1].Record? && Of(steps[n - 1].f, tenant, fp) then 1 else 0
  }

  lemma {:induction false} CountSumUpdate(rows: seq<Row>, k: nat, r: Row, tenant: string, fp: string)
    requires k < |rows|
    ensures CountSum(rows[k := r], tenant, fp)
         == CountSum(rows, tenant, fp) - Counted(rows[k], tenant, fp) + Counted(r, tenant, fp)
  {
    var n := |rows| - 1;
    if k < n {
      CountSumUpdate(rows[..n], k, r, tenant, fp);
      assert rows[k := r][..n] == rows[..n][k := r];
    } else {
      assert rows[k := r][..n] == rows[..n];
    }
  }

  lemma CountSumAppend(rows: seq<Row>, r: Row, tenant: string, fp: string)
    ensures CountSum(rows + [r], tenant, fp) == CountSum(rows, tenant, fp) + Counted(r, tenant, fp)
  {
    assert (rows + [r])[..|rows|] == rows;
  }

  lemma AppliedCounts(rows: seq<Row>, step: Step, tenant: string, fp: string)
    ensures CountSum(Applied(rows, step), tenant, fp)
         == CountSum(rows, tenant, fp) + if step.Record? && Of(step.f, tenant, fp) then 1 else 0
  {
    var after := Applied(rows, step);
    match step
    case Record(f) =>
      var k := Target(rows, f.tenant, f.fp);
      if k < |rows| { CountSumUpdate(rows, k, Bumped(rows[k], f), tenant, fp); }
      else { CountSumAppend(rows, Opened(f), tenant, fp); }
    case Direct(f) => CountSumAppend(rows, Loose(f), tenant, fp);
    case Acknowledge(_, id, _) =>
      if id < |rows| && after != rows { CountSumUpdate(rows, id, after[id], tenant, fp); }
    case Resolve(_, id, _) =>
      if id < |rows| && after != rows { CountSumUpdate(rows, id, after[id], tenant, fp); }
  }

  /** The counts of all rows of a condition grow by exactly the number of times it was recorded. */
  lemma {:induction false} CountsSumToDetections(tables: seq<seq<Row>>, steps: seq<Step>, n: nat, tenant: string,
                                                 fp: string)
    requires IsRun(tables, steps) && n <= |steps|
    ensures CountSum(tables[n], tenant, fp) == CountSum(tables[0], tenant, fp) + Detections(steps, n, tenant, fp)
  {
    if n > 0 {
      CountsSumToDetections(tables, steps, n - 1, tenant, fp);
      assert Moves(tables[n - 1], steps[n - 1], tables[n]);
      AppliedCounts(tables[n - 1], steps[n - 1], tenant, fp);
    }
  }

  // ---------------------------------------------------------------- a row is the summary of its detections

  function Hit(rows: seq<Row>, step: Step, id: nat): seq<Finding> {
    if step.Record? && Target(rows, step.f.tenant, step.f.fp) == id then [step.f] else []
  }

  /** The detections that opened or bumped row `id`, oldest first. */
  function Hits(tables: seq<seq<Row>>, steps: seq<Step>, n: nat, id: nat): seq<Finding>
    requires n <= |steps| < |tables|
  {
    if n == 0 then []
    else Hits(tables, steps, n - 1, id) + Hit(tables[n - 1], steps[n - 1], id)
  }

  /** `r` tells of `hits`: their number, the first and last instant, the worst severity, the latest text, and what the
      first of them was. */
  ghost predicate Tells(r: Row, hits: seq<Finding>) {
    hits != [] && r.count == |hits|
    && r.tenant == hits[0].tenant && r.fingerprint == Some(hits[0].fp) && r.ts == hits[0].now
    && r.scope == hits[0].scope && r.kind == hits[0].kind
    && r.firstSeen == Some(hits[0].now) && r.lastSeen == Some(hits[|hits| - 1].now)
    && r.summary == hits[|hits| - 1].summary && r.metadata == hits[|hits| - 1].metadata
    && (exists i :: 0 <= i < |hits| && r.severity == hits[i].severity)
    && (forall i :: 0 <= i < |hits| ==> Rank(hits[i].severity) <= Rank(r.severity))
  }

  lemma BumpTells(r: Row, hits: seq<Finding>, f: Finding)
    requires Tells(r, hits)
    ensures Tells(Bumped(r, f), hits + [f])
  {
    var all := hits + [f];
    var i :| 0 <= i < |hits| && r.severity == hits[i].severity;
    assert all[i] == hits[i] && all[|hits|] == f;
  }

  lemma OpenTells(f: Finding)
    ensures Tells(Opened(f), [f])
  {
    assert [f][0] == f;
  }

  /** What RowTellsItsHits says of row `id`, the table and the row's detections given. */
  ghost predicate Told(rows: seq<Row>, id: nat, hits: seq<Finding>) {
    (id >= |rows| ==> hits == []) && (id < |rows| && rows[id].fingerprint.Some? ==> Tells(rows[id], hits))
  }

  lemma AppliedTells(rows: seq<Row>, step: Step, id: nat, hits: seq<Finding>)
    requires Told(rows, id, hits)
    ensures Told(Applied(rows, step), id, hits + Hit(rows, step, id))
  {
    if Hit(rows, step, id) == [] {
      assert hits + Hit(rows, step, id) == hits;
    } else if id < |rows| {
      BumpTells(rows[id], hits, step.f);
    } else {
      OpenTells(step.f);
    }
  }

  /** Every fingerprinted row opened during a run is the summary of exactly its own detections. */
  lemma {:induction false} RowTellsItsHits(tables: seq<seq<Row>>, steps: seq<Step>, n: nat, id: nat)
    requires IsRun(tables, steps) && n <= |steps| && |tables[0]| <= id
    ensures Told(tables[n], id, Hits(tables, steps, n, id))
  {
    if n > 0 {
      RowTellsItsHits(tables, steps, n - 1, id);
      assert Moves(tables[n - 1], steps[n - 1], tables[n]);
      AppliedTells(tables[n - 1], steps[n - 1], id, Hits(tables, steps, n - 1, id));
    }
  }

  /** An instant that none of the first `n` detections is after. */
  function Horizon(steps: seq<Step>, n: nat): (limit: int)
    requires n <= |steps|
    ensures forall i :: 0 <= i < n && steps[i].Record? ==> steps[i].f.now <= limit
  {
    if n == 0 then 0
    else
      var limit := Horizon(steps, n - 1);
      if steps[n - 1].Record? && steps[n - 1].f.now > limit then steps[n - 1].f.now else limit
  }

  predicate ClockRises(steps: seq<Step>) {
    forall i, j :: 0 <= i < j < |steps| && steps[i].Record? && steps[j].Record? ==> steps[i].f.now <= steps[j].f.now
  }

  /** Detections in the order of the clock, none after instant `limit`. */
  predicate Rising(hits: seq<Finding>, limit: int) {
    hits != [] ==> hits[0].now <= hits[|hits| - 1].now <= limit
  }

  lemma {:induction false} HitsRise(tables: seq<seq<Row>>, steps: seq<Step>, n: nat, id: nat, limit: int)
    requires IsRun(tables, steps) && n <= |steps| && ClockRises(steps)
    requires forall i :: 0 <= i < n && steps[i].Record? ==> steps[i].f.now <= limit
    ensures Rising(Hits(tables, steps, n, id), limit)
  {
    if n > 0 {
      var step := steps[n - 1];
      var sooner := if step.Record? then step.f.now else limit;
      assert forall i :: 0 <= i < n - 1 && steps[i].Record? ==> steps[i].f.now <= sooner;
      HitsRise(tables, steps, n - 1, id, sooner);
      RisingHit(Hits(tables, steps, n - 1, id), tables[n - 1], step, id, limit);
    }
  }

  lemma RisingHit(hits: seq<Finding>, rows: seq<Row>, step: Step, id: nat, limit: int)
    requires Rising(hits, if step.Record? then step.f.now else limit) && (step.Record? ==> step.f.now <= limit)
    ensures Rising(hits + Hit(rows, step, id), limit)
  {}

  /** Under a clock that never goes back, no row was last seen before it was first seen. */
  lemma FirstSeenBeforeLast(tables: seq<seq<Row>>, steps: seq<Step>, n: nat, id: nat)
    requires IsRun(tables, steps) && n <= |steps| && ClockRises(steps) && |tables[0]| <= id < |tables[n]|
    requires tables[n][id].fingerprint.Some?
    ensures var r := tables[n][id];
      r.firstSeen.Some? && r.lastSeen.Some? && r.firstSeen.value <= r.lastSeen.value
  {
    RowTellsItsHits(tables, steps, n, id);
    HitsRise(tables, steps, n, id, Horizon(steps, n));
  }
}
