/** Monthly partitions and their upkeep: db/migrations/versions/0007_data_scale.py and
    services/partition_maintenance.py. */
module Partitions {
  import opened Common
  import opened Calendars

  // ---------------------------------------------------------------- partition names

  function PartName(c: Calendar, parent: string, m: int): string { parent + "_" + c.stamp(m) }

  /** A partition's name gives away its table and its month. */
  lemma NameGivesMonth(c: Calendar, parent: string, m: int)
    requires Lawful(c) && Nameable(m)
    ensures |PartName(c, parent, m)| == |parent| + 7
    ensures PartName(c, parent, m)[..|parent|] == parent
    ensures c.parse(Right6(PartName(c, parent, m))) == Some(m)
  {
    assert Stamped(c, m);
    assert Right6(PartName(c, parent, m)) == c.stamp(m);
  }

  lemma NamesDiffer(c: Calendar, p: string, m: int, q: string, n: int)
    requires Lawful(c) && Nameable(m) && Nameable(n) && PartName(c, p, m) == PartName(c, q, n)
    ensures p == q && m == n
  {
    NameGivesMonth(c, p, m);
    NameGivesMonth(c, q, n);
  }

  // ---------------------------------------------------------------- partitions

  /** A partition: its parent table, the months `first <= m < limit` it takes, the stamps of its rows.
      The bounds in the database are the instants at which months `first` and `limit` start. */
  datatype Partition = Partition(parent: string, first: int, limit: int, rows: multiset<int>)

  /** The relations in the schema, by name. */
  type Schema = map<string, Partition>

  /** The range test of the database, on months instead of instants. */
  predicate Takes(c: Calendar, p: Partition, ts: int) { p.first <= c.monthOf(ts) < p.limit }

  lemma TakesByInstant(c: Calendar, p: Partition, ts: int)
    requires Lawful(c)
    ensures Takes(c, p, ts) <==> c.start(p.first) <= ts < c.start(p.limit)
  {
    MonthOrder(c, ts, p.first);
    MonthOrder(c, ts, p.limit);
  }

  /** One whole month of its parent, under the name that says so. */
  predicate IsMonth(c: Calendar, name: string, p: Partition) {
    Nameable(p.first) && p.limit == p.first + 1 && name == PartName(c, p.parent, p.first)
  }

  predicate WholeMonths(c: Calendar, parts: Schema) { forall name :: name in parts ==> IsMonth(c, name, parts[name]) }

  predicate Has(c: Calendar, parts: Schema, parent: string, m: int)
    requires Nameable(m)
  {
    PartName(c, parent, m) in parts
  }

  /** Two partitions of a table never take the same instant. */
  lemma PartitionsDisjoint(c: Calendar, parts: Schema, a: string, b: string, ts: int)
    requires Lawful(c) && WholeMonths(c, parts) && a in parts && b in parts && parts[a].parent == parts[b].parent
    requires Takes(c, parts[a], ts) && Takes(c, parts[b], ts)
    ensures a == b
  {}

  /** `CREATE TABLE IF NOT EXISTS ... PARTITION OF parent` for month `m`. */
  function Created(c: Calendar, parts: Schema, parent: string, m: int): Schema
    requires Nameable(m)
  {
    if Has(c, parts, parent, m) then parts
    else parts[PartName(c, parent, m) := Partition(parent, m, m + 1, multiset{})]
  }

  /** Creation for the months `lo <= m < hi`, oldest first. */
  function CreatedRange(c: Calendar, parts: Schema, parent: string, lo: int, hi: int): Schema
    requires lo < hi ==> Nameable(lo) && Nameable(hi - 1)
    decreases hi - lo
  {
    if hi <= lo then parts else Created(c, CreatedRange(c, parts, parent, lo, hi - 1), parent, hi - 1)
  }

  lemma NameableBetween(lo: int, m: int, hi: int)
    requires Nameable(lo) && Nameable(hi) && lo <= m <= hi
    ensures Nameable(m)
  {}

  lemma RangeNext(c: Calendar, parts: Schema, parent: string, lo: int, hi: int)
    requires lo <= hi && Nameable(lo) && Nameable(hi)
    ensures lo < hi ==> Nameable(hi - 1)
    ensures CreatedRange(c, parts, parent, lo, hi + 1) == Created(c, CreatedRange(c, parts, parent, lo, hi), parent, hi)
  {}

  /** What is left after dropping the partitions of `parent` from before month `cutoff`. */
  function Dropped(parts: Schema, parent: string, cutoff: int): Schema {
    map name | name in parts && !Aged(parts[name], parent, cutoff) :: parts[name]
  }

  predicate Aged(p: Partition, parent: string, cutoff: int) { p.parent == parent && p.first < cutoff }

  /** What is left when the children in `waiting` have not been looked at yet. */
  function DroppedSoFar(parts: Schema, parent: string, cutoff: int, waiting: set<string>): Schema {
    map name | name in parts && (name in waiting || !Aged(parts[name], parent, cutoff)) :: parts[name]
  }

  function Children(parts: Schema, parent: string): set<string> {
    set name | name in parts && parts[name].parent == parent
  }

  lemma DropEnds(parts: Schema, parent: string, cutoff: int)
    ensures DroppedSoFar(parts, parent, cutoff, Children(parts, parent)) == parts
    ensures DroppedSoFar(parts, parent, cutoff, {}) == Dropped(parts, parent, cutoff)
  {}

  lemma DropNext(parts: Schema, parent: string, cutoff: int, waiting: set<string>, child: string, left: Schema)
    requires child in waiting && child in parts && left == DroppedSoFar(parts, parent, cutoff, waiting)
    ensures child in left && left[child] == parts[child]
    ensures DroppedSoFar(parts, parent, cutoff, waiting - {child})
         == if Aged(parts[child], parent, cutoff) then left - {child} else left
    ensures |left - {child}| == |left| - 1
  {
    assert left.Keys == (left - {child}).Keys + {child};
  }

  lemma CreatedKeepsWhole(c: Calendar, parts: Schema, parent: string, m: int)
    requires Lawful(c) && WholeMonths(c, parts) && Nameable(m)
    ensures WholeMonths(c, Created(c, parts, parent, m))
  {}

  /** A fresh month overlaps no older partition of its table. */
  lemma FreshMonth(c: Calendar, parts: Schema, parent: string, m: int)
    requires Lawful(c) && WholeMonths(c, parts) && Nameable(m) && !Has(c, parts, parent, m)
    ensures forall name :: name in parts && parts[name].parent == parent ==>
      parts[name].limit <= m || m + 1 <= parts[name].first
  {}

  /** The test of `drop_partitions_older_than` reads only the name; it finds the age of the partition. */
  method NameIsOlder(c: Calendar, name: string, parent: string, cutoff: int, ghost p: Partition) returns (older: bool)
    requires Lawful(c) && IsMonth(c, name, p) && p.parent == parent
    ensures older <==> Aged(p, parent, cutoff)
  {
    NameGivesMonth(c, p.parent, p.first);
    older := |name| >= |parent| + 7 && c.start(c.parse(Right6(name)).value) < c.start(cutoff);
  }

  // ---------------------------------------------------------------- ticks and inserts

  const FORWARD := 2

  /** A partitioned table and how long it keeps its rows. */
  datatype Policy = Policy(table: string, retention: int)

  predicate DistinctTables(policies: seq<Policy>) {
    forall i, j :: 0 <= i < j < |policies| ==> policies[i].table != policies[j].table
  }

  /** PARTITIONED_TABLES with RETENTION_DEFAULTS. */
  const DEFAULTS := [
    Policy("flow_summary_minute", 90 * DAY),
    Policy("interface_utilization_minute", 180 * DAY),
    Policy("queue_stats_minute", 30 * DAY)
  ]

  /** The months whose upkeep only needs names of four-digit years. */
  predicate InRange(m: int) { Nameable(m - 1) && Nameable(m + FORWARD) }

  /** A table and the month from which a tick keeps it. */
  datatype Due = Due(table: string, cutoff: int)

  function DueOf(c: Calendar, p: Policy, now: int): Due { Due(p.table, c.monthOf(now - p.retention)) }

  /** What a tick at `now` has to do, table by table. */
  function Plan(c: Calendar, policies: seq<Policy>, now: int): (plan: seq<Due>)
    ensures |plan| == |policies| && forall i :: 0 <= i < |plan| ==> plan[i] == DueOf(c, policies[i], now)
  {
    seq(|policies|, i requires 0 <= i < |policies| => DueOf(c, policies[i], now))
  }

  function TickedTable(c: Calendar, parts: Schema, m: int, due: Due): Schema
    requires InRange(m)
  {
    Dropped(CreatedRange(c, parts, due.table, m - 1, m + FORWARD + 1), due.table, due.cutoff)
  }

  /** `_tick` in month `m`, table by table. */
  function Ticked(c: Calendar, parts: Schema, m: int, plan: seq<Due>): Schema
    requires InRange(m)
  {
    if plan == [] then parts
    else TickedTable(c, Ticked(c, parts, m, plan[..|plan| - 1]), m, plan[|plan| - 1])
  }

  lemma NextTicked(c: Calendar, parts: Schema, m: int, plan: seq<Due>, i: nat)
    requires InRange(m) && i < |plan|
    ensures Ticked(c, parts, m, plan[..i + 1]) == TickedTable(c, Ticked(c, parts, m, plan[..i]), m, plan[i])
  {
    assert plan[..i + 1][..i] == plan[..i];
  }

  /** A row stamped `ts` needs the partition of its month. */
  predicate Accepts(c: Calendar, parts: Schema, table: string, ts: int) {
    Nameable(c.monthOf(ts)) && Has(c, parts, table, c.monthOf(ts))
  }

  function Inserted(c: Calendar, parts: Schema, table: string, ts: int): Schema {
    if !Accepts(c, parts, table, ts) then parts
    else
      var name := PartName(c, table, c.monthOf(ts));
      parts[name := parts[name].(rows := parts[name].rows + multiset{ts})]
  }

  lemma Route(c: Calendar, parts: Schema, name: string, ts: int)
    requires Lawful(c) && WholeMonths(c, parts) && name in parts && Takes(c, parts[name], ts)
    ensures Accepts(c, parts, parts[name].parent, ts) && name == PartName(c, parts[name].parent, c.monthOf(ts))
  {}

  lemma NoRoute(c: Calendar, parts: Schema, table: string, ts: int)
    requires Lawful(c) && WholeMonths(c, parts) && Accepts(c, parts, table, ts)
    ensures exists name :: name in parts && parts[name].parent == table && Takes(c, parts[name], ts)
  {
    var name := PartName(c, table, c.monthOf(ts));
    NamesDiffer(c, table, c.monthOf(ts), parts[name].parent, parts[name].first);
  }

  class Database {
    var parts: Schema
    const policies: seq<Policy>
    const c: Calendar

    ghost predicate Valid()
      reads this
    {
      Lawful(c) && WholeMonths(c, parts)
    }

    constructor (policies: seq<Policy>, calendar: Calendar)
      requires Lawful(calendar)
      ensures Valid() && parts == map[] && this.policies == policies && c == calendar
    {
      c := calendar;
      this.policies := policies;
      parts := map[];
    }

    /** One statement of `ensure_monthly_partitions`; a range that overlaps an older one is an error. */
    method CreatePartition(parent: string, m: int) returns (ok: bool)
      requires Valid() && Nameable(m)
      modifies this
      ensures Valid() && ok && parts == Created(c, old(parts), parent, m)
    {
      var name := PartName(c, parent, m);
      CreatedKeepsWhole(c, parts, parent, m);
      if name in parts {
        return true;
      }
      FreshMonth(c, parts, parent, m);
      if exists other :: other in parts.Keys && parts[other].parent == parent
           && parts[other].first < m + 1 && m < parts[other].limit {
        return false;
      }
      parts := parts[name := Partition(parent, m, m + 1, multiset{})];
      ok := true;
    }

    /** `ensure_monthly_partitions`, in month `m`. */
    method EnsureMonthlyPartitions(parent: string, forward: nat, m: int) returns (ok: bool)
      requires Valid() && Nameable(m - 1) && Nameable(m + forward)
      modifies this
      ensures Valid() && ok && parts == CreatedRange(c, old(parts), parent, m - 1, m + forward + 1)
    {
      ok := true;
      for i := -1 to forward + 1
        invariant Valid() && ok
        invariant parts == CreatedRange(c, old(parts), parent, m - 1, m + i)
      {
        NameableBetween(m - 1, m + i, m + forward);
        var created := CreatePartition(parent, m + i);
        RangeNext(c, old(parts), parent, m - 1, m + i);
        ok := ok && created;
      }
    }

    /** `drop_partitions_older_than`, with the month of `now() - older_than`. */
    method DropPartitionsOlderThan(parent: string, cutoff: int) returns (dropped: nat)
      requires Valid()
      modifies this
      ensures Valid() && parts == Dropped(old(parts), parent, cutoff)
      ensures dropped == |old(parts)| - |parts|
    {
      dropped := 0;
      ghost var before := parts;
      var children := Children(parts, parent);
      DropEnds(before, parent, cutoff);
      while children != {}
        invariant children <= Children(before, parent)
        invariant parts == DroppedSoFar(before, parent, cutoff, children)
        invariant dropped == |before| - |parts|
        decreases |children|
      {
        var child :| child in children;
        DropNext(before, parent, cutoff, children, child, parts);
        var older := NameIsOlder(c, child, parent, cutoff, parts[child]);
        if older {
          parts := parts - {child};
          dropped := dropped + 1;
        }
        children := children - {child};
      }
    }

    /** `_tick`: upkeep of every partitioned table, in one transaction. */
    method Tick(now: int) returns (ok: bool)
      requires Valid() && InRange(c.monthOf(now)) && DistinctTables(policies)
      modifies this
      ensures Valid() && ok && TickOf(c, old(parts), parts, now, policies)
    {
      ok := true;
      var m, plan := c.monthOf(now), Plan(c, policies, now);
      for i := 0 to |policies|
        invariant Valid() && ok
        invariant |plan| == |policies| && parts == Ticked(c, old(parts), m, plan[..i])
      {
        ok := TickTable(plan[i], m);
        NextTicked(c, old(parts), m, plan, i);
      }
      assert plan[..|policies|] == plan;
      TickedIsTick(c, old(parts), now, policies, parts);
    }

    method TickTable(due: Due, m: int) returns (ok: bool)
      requires Valid() && InRange(m)
      modifies this
      ensures Valid() && ok && parts == TickedTable(c, old(parts), m, due)
    {
      ok := EnsureMonthlyPartitions(due.table, FORWARD, m);
      var dropped := DropPartitionsOlderThan(due.table, due.cutoff);
    }

    /** A row goes to the partition whose range holds its stamp; without one the insert fails. */
    method Insert(table: string, ts: int) returns (ok: bool)
      requires Valid()
      modifies this
      ensures Valid() && ok == Accepts(c, old(parts), table, ts)
      ensures parts == Inserted(c, old(parts), table, ts)
    {
      var month := c.monthOf(ts);
      if name :| name in parts && parts[name].parent == table && parts[name].first <= month < parts[name].limit {
        Route(c, parts, name, ts);
        var p := parts[name];
        parts := parts[name := p.(rows := p.rows + multiset{ts})];
        ok := true;
      } else {
        if Accepts(c, parts, table, ts) { NoRoute(c, parts, table, ts); }
        ok := false;
      }
    }
  }

  // ---------------------------------------------------------------- which months a tick leaves

  function Rows(c: Calendar, parts: Schema, table: string, m: int): multiset<int>
    requires Nameable(m)
  {
    if Has(c, parts, table, m) then parts[PartName(c, table, m)].rows else multiset{}
  }

  lemma CreatedHas(c: Calendar, parts: Schema, table: string, m: int, q: string, n: int)
    requires Lawful(c) && WholeMonths(c, parts) && Nameable(m) && Nameable(n)
    ensures WholeMonths(c, Created(c, parts, table, m))
    ensures Has(c, Created(c, parts, table, m), q, n) <==> Has(c, parts, q, n) || (q == table && n == m)
    ensures Rows(c, Created(c, parts, table, m), q, n) == Rows(c, parts, q, n)
  {
    if PartName(c, q, n) == PartName(c, table, m) { NamesDiffer(c, q, n, table, m); }
  }

  lemma {:induction false} CreatedRangeHas(c: Calendar, parts: Schema, table: string, lo: int, hi: int, q: string,
                                           n: int)
    requires lo < hi ==> Nameable(lo) && Nameable(hi - 1)
    requires Lawful(c) && WholeMonths(c, parts) && Nameable(n)
    ensures WholeMonths(c, CreatedRange(c, parts, table, lo, hi))
    ensures Has(c, CreatedRange(c, parts, table, lo, hi), q, n) <==> Has(c, parts, q, n) || (q == table && lo <= n < hi)
    ensures Rows(c, CreatedRange(c, parts, table, lo, hi), q, n) == Rows(c, parts, q, n)
    decreases hi - lo
  {
    if lo < hi {
      CreatedRangeHas(c, parts, table, lo, hi - 1, q, n);
      CreatedHas(c, CreatedRange(c, parts, table, lo, hi - 1), table, hi - 1, q, n);
    }
  }

  lemma DroppedHas(c: Calendar, parts: Schema, table: string, cutoff: int, q: string, n: int)
    requires Lawful(c) && WholeMonths(c, parts) && Nameable(n)
    ensures WholeMonths(c, Dropped(parts, table, cutoff))
    ensures Has(c, Dropped(parts, table, cutoff), q, n) <==> Has(c, parts, q, n) && !(q == table && n < cutoff)
    ensures Has(c, Dropped(parts, table, cutoff), q, n) ==>
      Rows(c, Dropped(parts, table, cutoff), q, n) == Rows(c, parts, q, n)
  {
    var name := PartName(c, q, n);
    if name in parts { NamesDiffer(c, q, n, parts[name].parent, parts[name].first); }
  }

  /** What happens to month `n` of a table that upkeep in month `m` touches: the months around `m` are
      added, those before the cut-off removed, and the rows of what stays are untouched. */
  predicate Upkeep(c: Calendar, before: Schema, after: Schema, q: string, n: int, m: int, cutoff: int)
    requires Nameable(n)
  {
    (Has(c, after, q, n) <==> n >= cutoff && (Has(c, before, q, n) || m - 1 <= n <= m + 2))
    && (n >= cutoff ==> Rows(c, after, q, n) == Rows(c, before, q, n))
  }

  predicate Untouched(c: Calendar, before: Schema, after: Schema, q: string, n: int)
    requires Nameable(n)
  {
    (Has(c, after, q, n) <==> Has(c, before, q, n)) && Rows(c, after, q, n) == Rows(c, before, q, n)
  }

  lemma TickedTableFate(c: Calendar, parts: Schema, m: int, due: Due, q: string, n: int)
    requires Lawful(c) && WholeMonths(c, parts) && Nameable(n) && InRange(m)
    ensures WholeMonths(c, TickedTable(c, parts, m, due))
    ensures q == due.table ==> Upkeep(c, parts, TickedTable(c, parts, m, due), q, n, m, due.cutoff)
    ensures q != due.table ==> Untouched(c, parts, TickedTable(c, parts, m, due), q, n)
  {
    CreatedRangeHas(c, parts, due.table, m - 1, m + FORWARD + 1, q, n);
    DroppedHas(c, CreatedRange(c, parts, due.table, m - 1, m + FORWARD + 1), due.table, due.cutoff, q, n);
  }

  predicate Listed(plan: seq<Due>, q: string) { exists i :: 0 <= i < |plan| && plan[i].table == q }

  predicate Unrepeated(plan: seq<Due>) { forall i, j :: 0 <= i < j < |plan| ==> plan[i].table != plan[j].table }

  lemma UntouchedThenUpkeep(c: Calendar, a: Schema, b: Schema, after: Schema, q: string, n: int, m: int, cutoff: int)
    requires Nameable(n) && Untouched(c, a, b, q, n) && Upkeep(c, b, after, q, n, m, cutoff)
    ensures Upkeep(c, a, after, q, n, m, cutoff)
  {}

  lemma UpkeepThenUntouched(c: Calendar, a: Schema, b: Schema, after: Schema, q: string, n: int, m: int, cutoff: int)
    requires Nameable(n) && Upkeep(c, a, b, q, n, m, cutoff) && Untouched(c, b, after, q, n)
    ensures Upkeep(c, a, after, q, n, m, cutoff)
  {}

  lemma {:induction false} UnlistedUntouched(c: Calendar, parts: Schema, m: int, plan: seq<Due>, q: string, n: int)
    requires Lawful(c) && WholeMonths(c, parts) && Nameable(n) && InRange(m) && !Listed(plan, q)
    ensures WholeMonths(c, Ticked(c, parts, m, plan)) && Untouched(c, parts, Ticked(c, parts, m, plan), q, n)
  {
    if plan != [] {
      var init, last := plan[..|plan| - 1], plan[|plan| - 1];
      assert !Listed(init, q) && last.table != q by {
        assert forall i :: 0 <= i < |init| ==> init[i] == plan[i];
      }
      UnlistedUntouched(c, parts, m, init, q, n);
      TickedTableFate(c, Ticked(c, parts, m, init), m, last, q, n);
    }
  }

  /** The i-th table of a plan gets exactly its own upkeep. */
  lemma {:induction false} ListedUpkeep(c: Calendar, parts: Schema, m: int, plan: seq<Due>, i: nat, n: int)
    requires Lawful(c) && WholeMonths(c, parts) && Nameable(n) && InRange(m) && Unrepeated(plan) && i < |plan|
    ensures WholeMonths(c, Ticked(c, parts, m, plan))
    ensures Upkeep(c, parts, Ticked(c, parts, m, plan), plan[i].table, n, m, plan[i].cutoff)
  {
    var k, q := |plan| - 1, plan[i].table;
    var init, last := plan[..k], plan[k];
    var before := Ticked(c, parts, m, init);
    if i < k {
      ListedUpkeep(c, parts, m, init, i, n);
      TickedTableFate(c, before, m, last, q, n);
      UpkeepThenUntouched(c, parts, before, Ticked(c, parts, m, plan), q, n, m, plan[i].cutoff);
    } else {
      assert !Listed(init, q);
      UnlistedUntouched(c, parts, m, init, q, n);
      TickedTableFate(c, before, m, last, q, n);
      UntouchedThenUpkeep(c, parts, before, Ticked(c, parts, m, plan), q, n, m, last.cutoff);
    }
  }

  /** What one tick at `now` does to the partitions of every table, and to nothing else. */
  ghost predicate TickOf(c: Calendar, before: Schema, after: Schema, now: int, policies: seq<Policy>) {
    WholeMonths(c, after)
    && (forall i, n :: 0 <= i < |policies| && Nameable(n) ==>
          Upkeep(c, before, after, policies[i].table, n, c.monthOf(now), c.monthOf(now - policies[i].retention)))
    && (forall q, n :: Nameable(n) && (forall i :: 0 <= i < |policies| ==> policies[i].table != q) ==>
        Untouched(c, before, after, q, n))
  }

  lemma PlanUpkeep(c: Calendar, parts: Schema, now: int, policies: seq<Policy>, i: nat, n: int)
    requires Lawful(c) && WholeMonths(c, parts) && InRange(c.monthOf(now)) && DistinctTables(policies)
    requires i < |policies| && Nameable(n)
    ensures var after := Ticked(c, parts, c.monthOf(now), Plan(c, policies, now));
      WholeMonths(c, after)
      && Upkeep(c, parts, after, policies[i].table, n, c.monthOf(now), c.monthOf(now - policies[i].retention))
  {
    ListedUpkeep(c, parts, c.monthOf(now), Plan(c, policies, now), i, n);
  }

  lemma PlanUntouched(c: Calendar, parts: Schema, now: int, policies: seq<Policy>, q: string, n: int)
    requires Lawful(c) && WholeMonths(c, parts) && InRange(c.monthOf(now)) && Nameable(n)
    requires forall i :: 0 <= i < |policies| ==> policies[i].table != q
    ensures Untouched(c, parts, Ticked(c, parts, c.monthOf(now), Plan(c, policies, now)), q, n)
  {
    UnlistedUntouched(c, parts, c.monthOf(now), Plan(c, policies, now), q, n);
  }

  lemma TickedIsTick(c: Calendar, parts: Schema, now: int, policies: seq<Policy>, after: Schema)
    requires Lawful(c) && WholeMonths(c, parts) && InRange(c.monthOf(now)) && DistinctTables(policies)
    requires after == Ticked(c, parts, c.monthOf(now), Plan(c, policies, now))
    ensures TickOf(c, parts, after, now, policies)
  {
    if policies != [] { PlanUpkeep(c, parts, now, policies, 0, 12); }
    forall i, n | 0 <= i < |policies| && Nameable(n)
      ensures Upkeep(c, parts, after, policies[i].table, n, c.monthOf(now), c.monthOf(now - policies[i].retention))
    {
      PlanUpkeep(c, parts, now, policies, i, n);
    }
    forall q, n | Nameable(n) && (forall i :: 0 <= i < |policies| ==> policies[i].table != q)
      ensures Untouched(c, parts, after, q, n)
    {
      PlanUntouched(c, parts, now, policies, q, n);
    }
  }
}
