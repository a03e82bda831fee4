/** What monthly upkeep guarantees over every run of ticks and inserts. */
module PartitionRuns {
  import opened Calendars
  import opened Partitions

  datatype Event = Tick(now: int) | Insert(table: string, ts: int)

  ghost predicate Step(c: Calendar, before: Schema, e: Event, after: Schema, policies: seq<Policy>) {
    match e
    case Tick(now) => TickOf(c, before, after, now, policies)
    case Insert(table, ts) => after == Inserted(c, before, table, ts)
  }

  /** `states` are the schemas before, between and after the events. */
  ghost predicate IsRun(c: Calendar, states: seq<Schema>, events: seq<Event>, policies: seq<Policy>) {
    Lawful(c) && |states| == |events| + 1 && WholeMonths(c, states[0])
    && forall i :: 0 <= i < |events| ==> Step(c, states[i], events[i], states[i + 1], policies)
  }

  /** The rows of `table` stamped `ts` that are stored. */
  function Stored(c: Calendar, parts: Schema, table: string, ts: int): nat {
    if Nameable(c.monthOf(ts)) then Rows(c, parts, table, c.monthOf(ts))[ts] else 0
  }

  /** 1 if the event stores a row of `table` stamped `ts`. */
  function Gain(c: Calendar, before: Schema, e: Event, table: string, ts: int): nat {
    if e == Insert(table, ts) && Accepts(c, before, table, ts) then 1 else 0
  }

  function Gains(c: Calendar, states: seq<Schema>, events: seq<Event>, table: string, ts: int): seq<nat>
    requires |states| == |events| + 1
  {
    seq(|events|, i requires 0 <= i < |events| => Gain(c, states[i], events[i], table, ts))
  }

  function SumOf(xs: seq<nat>, n: nat): nat
    requires n <= |xs|
  {
    if n == 0 then 0 else SumOf(xs, n - 1) + xs[n - 1]
  }

  /** How many inserts of a row of `table` stamped `ts` the first `n` events accepted. */
  function Accepted(c: Calendar, states: seq<Schema>, events: seq<Event>, n: nat, table: string, ts: int): nat
    requires n <= |events| && |states| == |events| + 1
  {
    SumOf(Gains(c, states, events, table, ts), n)
  }

  lemma InsertFate(c: Calendar, parts: Schema, table: string, ts: int, q: string, n: int)
    requires Lawful(c) && WholeMonths(c, parts) && Nameable(n)
    ensures WholeMonths(c, Inserted(c, parts, table, ts))
    ensures Has(c, Inserted(c, parts, table, ts), q, n) <==> Has(c, parts, q, n)
    ensures Rows(c, Inserted(c, parts, table, ts), q, n)
         == Rows(c, parts, q, n)
            + if Accepts(c, parts, table, ts) && q == table && n == c.monthOf(ts) then multiset{ts} else multiset{}
  {
    if Accepts(c, parts, table, ts) {
      if PartName(c, q, n) == PartName(c, table, c.monthOf(ts)) { NamesDiffer(c, q, n, table, c.monthOf(ts)); }
    }
  }

  lemma {:induction false} RunKeepsWhole(c: Calendar, states: seq<Schema>, events: seq<Event>, policies: seq<Policy>,
                                         n: nat)
    requires IsRun(c, states, events, policies) && n <= |events|
    ensures WholeMonths(c, states[n])
  {
    if n > 0 {
      RunKeepsWhole(c, states, events, policies, n - 1);
      assert Step(c, states[n - 1], events[n - 1], states[n], policies);
      if events[n - 1].Insert? {
        InsertFate(c, states[n - 1], events[n - 1].table, events[n - 1].ts, "", 12);
      }
    }
  }

  /** The row is within the retention of policy `p` at every tick of the run. */
  predicate YoungThroughout(events: seq<Event>, p: Policy, ts: int) {
    forall i :: 0 <= i < |events| && events[i].Tick? ==> ts >= events[i].now - p.retention
  }

  lemma TickKeepsYoung(c: Calendar, before: Schema, after: Schema, now: int, policies: seq<Policy>, i: nat, ts: int)
    requires Lawful(c) && TickOf(c, before, after, now, policies) && i < |policies|
    requires ts >= now - policies[i].retention
    ensures Stored(c, after, policies[i].table, ts) == Stored(c, before, policies[i].table, ts)
  {
    MonthOfMonotone(c, now - policies[i].retention, ts);
    var n := c.monthOf(ts);
    if Nameable(n) {
      assert Upkeep(c, before, after, policies[i].table, n, c.monthOf(now), c.monthOf(now - policies[i].retention));
    }
  }

  lemma InsertStores(c: Calendar, before: Schema, t: string, stamp: int, table: string, ts: int)
    requires Lawful(c) && WholeMonths(c, before)
    ensures Stored(c, Inserted(c, before, t, stamp), table, ts)
         == Stored(c, before, table, ts) + if t == table && stamp == ts && Accepts(c, before, table, ts) then 1 else 0
  {
    if Nameable(c.monthOf(ts)) { InsertFate(c, before, t, stamp, table, c.monthOf(ts)); }
  }

  lemma StepStores(c: Calendar, before: Schema, e: Event, after: Schema, policies: seq<Policy>, i: nat, ts: int)
    requires Lawful(c) && WholeMonths(c, before) && Step(c, before, e, after, policies) && i < |policies|
    requires e.Tick? ==> ts >= e.now - policies[i].retention
    ensures Stored(c, after, policies[i].table, ts)
         == Stored(c, before, policies[i].table, ts) + Gain(c, before, e, policies[i].table, ts)
  {
    match e
    case Tick(now) => TickKeepsYoung(c, before, after, now, policies, i, ts);
    case Insert(t, stamp) => InsertStores(c, before, t, stamp, policies[i].table, ts);
  }

  lemma RunStores(c: Calendar, states: seq<Schema>, events: seq<Event>, policies: seq<Policy>, i: nat, ts: int, n: nat)
    requires IsRun(c, states, events, policies) && i < |policies| && n < |events|
    requires YoungThroughout(events, policies[i], ts)
    ensures Stored(c, states[n + 1], policies[i].table, ts)
         == Stored(c, states[n], policies[i].table, ts) + Gain(c, states[n], events[n], policies[i].table, ts)
  {
    RunKeepsWhole(c, states, events, policies, n);
    StepStores(c, states[n], events[n], states[n + 1], policies, i, ts);
  }

  lemma {:induction false} Telescopes(totals: seq<nat>, gains: seq<nat>, n: nat)
    requires n <= |gains| && n < |totals| && forall i :: 0 <= i < n ==> totals[i + 1] == totals[i] + gains[i]
    ensures totals[n] == totals[0] + SumOf(gains, n)
  {
    if n > 0 { Telescopes(totals, gains, n - 1); }
  }

  /** No accepted row is lost while it is younger than its table's retention: over every run,
      the rows stored are exactly those there at the start plus those accepted. */
  lemma NoYoungRowLost(
      c: Calendar, states: seq<Schema>, events: seq<Event>, policies: seq<Policy>, i: nat, ts: int, n: nat)
    requires IsRun(c, states, events, policies) && i < |policies| && n <= |events|
    requires YoungThroughout(events, policies[i], ts)
    ensures Stored(c, states[n], policies[i].table, ts)
         == Stored(c, states[0], policies[i].table, ts) + Accepted(c, states, events, n, policies[i].table, ts)
  {
    var table := policies[i].table;
    var totals := seq(n + 1, k requires 0 <= k <= n => Stored(c, states[k], table, ts));
    var gains := Gains(c, states, events, table, ts);
    forall k | 0 <= k < n
      ensures totals[k + 1] == totals[k] + gains[k]
    {
      RunStores(c, states, events, policies, i, ts, k);
    }
    Telescopes(totals, gains, n);
  }

  /** What a tick drops held nothing young: the whole range of a dropped partition is past retention. */
  lemma DroppedRangeIsOld(c: Calendar, before: Schema, after: Schema, now: int, policies: seq<Policy>, i: nat, n: int,
                          ts: int)
    requires Lawful(c) && TickOf(c, before, after, now, policies) && i < |policies| && Nameable(n)
    requires Has(c, before, policies[i].table, n) && !Has(c, after, policies[i].table, n)
    requires c.start(n) <= ts < c.start(n + 1)
    ensures now - ts > policies[i].retention
  {
    var back := now - policies[i].retention;
    assert Upkeep(c, before, after, policies[i].table, n, c.monthOf(now), c.monthOf(back));
    MonthOrder(c, back, n + 1);
  }

  /** No surviving partition starts before the month holding now minus retention. */
  lemma NothingOldSurvives(c: Calendar, before: Schema, after: Schema, now: int, policies: seq<Policy>, i: nat, n: int)
    requires Lawful(c) && TickOf(c, before, after, now, policies) && i < |policies|
    requires Nameable(n) && Has(c, after, policies[i].table, n)
    ensures c.start(n) >= c.start(c.monthOf(now - policies[i].retention))
  {
    assert Upkeep(c, before, after, policies[i].table, n, c.monthOf(now), c.monthOf(now - policies[i].retention));
  }

  /** A tick leaves this month and the next two covered. */
  lemma MonthsAhead(c: Calendar, before: Schema, after: Schema, now: int, policies: seq<Policy>, i: nat, n: int)
    requires Lawful(c) && TickOf(c, before, after, now, policies) && i < |policies| && InRange(c.monthOf(now))
    requires policies[i].retention >= 0 && c.monthOf(now) <= n <= c.monthOf(now) + 2
    ensures Has(c, after, policies[i].table, n)
  {
    MonthOfMonotone(c, now - policies[i].retention, now);
    assert Nameable(n);
    assert Upkeep(c, before, after, policies[i].table, n, c.monthOf(now), c.monthOf(now - policies[i].retention));
  }

  /** A tick leaves the previous month exactly when now minus retention lies before this month. */
  lemma PreviousMonthIff(c: Calendar, before: Schema, after: Schema, now: int, policies: seq<Policy>, i: nat)
    requires Lawful(c) && TickOf(c, before, after, now, policies) && i < |policies| && InRange(c.monthOf(now))
    ensures Has(c, after, policies[i].table, c.monthOf(now) - 1)
       <==> now - policies[i].retention < c.start(c.monthOf(now))
  {
    var m, back := c.monthOf(now), now - policies[i].retention;
    assert Upkeep(c, before, after, policies[i].table, m - 1, m, c.monthOf(back));
    MonthOrder(c, back, m);
  }

  /** With 30 days of retention a tick keeps the previous month on the first thirty days of a month
      and drops it on the 31st. */
  lemma PreviousMonthUnderThirtyDays(c: Calendar, before: Schema, after: Schema, now: int, policies: seq<Policy>,
                                     i: nat)
    requires Lawful(c) && TickOf(c, before, after, now, policies) && i < |policies| && InRange(c.monthOf(now))
    requires policies[i].retention == 30 * DAY
    ensures Has(c, after, policies[i].table, c.monthOf(now) - 1) <==> DayOfMonth(c, now) <= 30
  {
    PreviousMonthIff(c, before, after, now, policies, i);
  }

  /** From 31 days of retention on, the previous month is always there for late rows. */
  lemma PreviousMonthUnderLongerRetention(c: Calendar, before: Schema, after: Schema, now: int, policies: seq<Policy>,
                                          i: nat)
    requires Lawful(c) && TickOf(c, before, after, now, policies) && i < |policies| && InRange(c.monthOf(now))
    requires policies[i].retention >= 31 * DAY
    ensures Has(c, after, policies[i].table, c.monthOf(now) - 1)
  {
    assert MonthLength(c, c.monthOf(now));
    PreviousMonthIff(c, before, after, now, policies, i);
  }

  lemma SamePartition(c: Calendar, a: Schema, b: Schema, name: string, table: string, n: int)
    requires Lawful(c) && WholeMonths(c, a) && WholeMonths(c, b) && Nameable(n) && name == PartName(c, table, n)
      && name in a && name in b
    requires Rows(c, a, table, n) == Rows(c, b, table, n)
    ensures a[name] == b[name]
  {
    NamesDiffer(c, table, n, a[name].parent, a[name].first);
    NamesDiffer(c, table, n, b[name].parent, b[name].first);
  }

  lemma TickRepeats(c: Calendar, before: Schema, once: Schema, twice: Schema, now: int, policies: seq<Policy>,
                    q: string, n: int)
    requires Lawful(c) && TickOf(c, before, once, now, policies) && TickOf(c, once, twice, now, policies) && Nameable(n)
    ensures Untouched(c, once, twice, q, n)
  {
    if i :| 0 <= i < |policies| && policies[i].table == q {
      assert Upkeep(c, before, once, policies[i].table, n, c.monthOf(now), c.monthOf(now - policies[i].retention));
      assert Upkeep(c, once, twice, policies[i].table, n, c.monthOf(now), c.monthOf(now - policies[i].retention));
    }
  }

  /** A repeated tick at the same instant changes nothing. */
  lemma TickIdempotent(c: Calendar, before: Schema, once: Schema, twice: Schema, now: int, policies: seq<Policy>)
    requires Lawful(c) && TickOf(c, before, once, now, policies) && TickOf(c, once, twice, now, policies)
    ensures twice == once
  {
    forall name | name in once || name in twice
      ensures name in once && name in twice && once[name] == twice[name]
    {
      var p := if name in once then once[name] else twice[name];
      TickRepeats(c, before, once, twice, now, policies, p.parent, p.first);
      SamePartition(c, once, twice, name, p.parent, p.first);
    }
  }

  predicate InsertsOnly(events: seq<Event>, lo: nat) { forall i :: lo <= i < |events| ==> events[i].Insert? }

  lemma {:induction false} InsertsKeepMonths(
      c: Calendar, states: seq<Schema>, events: seq<Event>, policies: seq<Policy>, lo: nat, hi: nat,
      table: string, n: int)
    requires IsRun(c, states, events, policies) && lo <= hi <= |events| && InsertsOnly(events, lo) && Nameable(n)
    ensures Has(c, states[hi], table, n) <==> Has(c, states[lo], table, n)
    decreases hi
  {
    if lo < hi {
      InsertsKeepMonths(c, states, events, policies, lo, hi - 1, table, n);
      RunKeepsWhole(c, states, events, policies, hi - 1);
      assert Step(c, states[hi - 1], events[hi - 1], states[hi], policies);
      InsertFate(c, states[hi - 1], events[hi - 1].table, events[hi - 1].ts, table, n);
    }
  }

  /** In every run, from its last tick until the third month after it begins, a row stamped with the current
      time finds its partition, whatever happened before and whatever was inserted since. */
  lemma NowStaysCovered(c: Calendar, states: seq<Schema>, events: seq<Event>, policies: seq<Policy>, i: nat, k: nat,
                        now: int)
    requires IsRun(c, states, events, policies) && i < |policies| && policies[i].retention >= 0
    requires k < |events| && events[k].Tick? && InsertsOnly(events, k + 1) && InRange(c.monthOf(events[k].now))
    requires events[k].now <= now < c.start(c.monthOf(events[k].now) + 3)
    ensures Accepts(c, states[|events|], policies[i].table, now)
  {
    var tick := events[k].now;
    var m, n := c.monthOf(tick), c.monthOf(now);
    MonthOfMonotone(c, tick, now);
    MonthOrder(c, now, m + 3);
    assert Step(c, states[k], events[k], states[k + 1], policies);
    MonthsAhead(c, states[k], states[k + 1], tick, policies, i, n);
    InsertsKeepMonths(c, states, events, policies, k + 1, |events|, policies[i].table, n);
  }

  /** So no gap of up to 59 days between ticks, whenever it falls, leaves the present uncovered. */
  lemma FiftyNineDaysStayCovered(c: Calendar, states: seq<Schema>, events: seq<Event>, policies: seq<Policy>, i: nat,
                                 k: nat, now: int)
    requires IsRun(c, states, events, policies) && i < |policies| && policies[i].retention >= 0
    requires k < |events| && events[k].Tick? && InsertsOnly(events, k + 1) && InRange(c.monthOf(events[k].now))
    requires events[k].now <= now < events[k].now + 59 * DAY
    ensures Accepts(c, states[|events|], policies[i].table, now)
  {
    var m := c.monthOf(events[k].now);
    assert MonthLength(c, m + 1);
    MonthOrder(c, events[k].now, m + 1);
    NowStaysCovered(c, states, events, policies, i, k, now);
  }

  /** The shipped tables are distinct, and only the queue counters are kept for under 31 days. */
  lemma ShippedPolicies(i: nat)
    requires i < |DEFAULTS|
    ensures DistinctTables(DEFAULTS) && |DEFAULTS| == 3
    ensures DEFAULTS[i].table == "flow_summary_minute" <==> DEFAULTS[i].retention == 90 * DAY
    ensures DEFAULTS[i].table == "interface_utilization_minute" <==> DEFAULTS[i].retention == 180 * DAY
    ensures DEFAULTS[i].table == "queue_stats_minute" <==> DEFAULTS[i].retention == 30 * DAY
    ensures DEFAULTS[i].retention == 30 * DAY || DEFAULTS[i].retention >= 31 * DAY
    ensures DEFAULTS[i].retention < 31 * DAY <==> DEFAULTS[i].table == "queue_stats_minute"
  {
    assert |DEFAULTS[0].table| == 19 && |DEFAULTS[1].table| == 28 && |DEFAULTS[2].table| == 18;
  }

  /** As shipped, a tick keeps the previous month of every table, but for the queue counters on the 31st. */
  lemma ShippedTickKeepsPreviousMonthIff(c: Calendar, before: Schema, after: Schema, now: int, i: nat)
    requires Lawful(c) && TickOf(c, before, after, now, DEFAULTS) && i < |DEFAULTS| && InRange(c.monthOf(now))
    ensures Has(c, after, DEFAULTS[i].table, c.monthOf(now) - 1)
       <==> DEFAULTS[i].table != "queue_stats_minute" || DayOfMonth(c, now) <= 30
  {
    ShippedPolicies(i);
    if DEFAULTS[i].retention == 30 * DAY {
      PreviousMonthUnderThirtyDays(c, before, after, now, DEFAULTS, i);
    } else {
      PreviousMonthUnderLongerRetention(c, before, after, now, DEFAULTS, i);
    }
  }

  /** A month of 31 days. */
  predicate Long(c: Calendar, m: int) { c.start(m + 1) == c.start(m) + 31 * DAY }

  /** The first instant of the 31st of a long month. */
  function The31st(c: Calendar, m: int): int { c.start(m) + 30 * DAY }

  lemma The31stIsInMonth(c: Calendar, m: int)
    requires Lawful(c) && Long(c, m)
    ensures c.monthOf(The31st(c, m)) == m && DayOfMonth(c, The31st(c, m)) == 31
  {
    MonthOrder(c, The31st(c, m), m);
    MonthOrder(c, The31st(c, m), m + 1);
  }

  lemma LastInstant(c: Calendar, m: int)
    requires Lawful(c)
    ensures c.monthOf(c.start(m) - 1) == m - 1
  {
    MonthOrder(c, c.start(m) - 1, m);
    MonthOrder(c, c.start(m) - 1, m - 1);
  }

  /** The input on which the promise fails: the tick on the 31st of any month that has one, whatever partitions it
      finds. The queue counters of the previous month are gone and a late row of theirs is refused, while the
      other tables keep theirs. */
  lemma QueueLosesPreviousMonth(c: Calendar, m: int, before: Schema, after: Schema)
    requires Lawful(c) && Long(c, m) && InRange(m) && WholeMonths(c, before)
    requires after == Ticked(c, before, m, Plan(c, DEFAULTS, The31st(c, m)))
    ensures TickOf(c, before, after, The31st(c, m), DEFAULTS)
    ensures !Has(c, after, "queue_stats_minute", m - 1) && !Accepts(c, after, "queue_stats_minute", c.start(m) - 1)
    ensures Has(c, after, "flow_summary_minute", m - 1) && Has(c, after, "interface_utilization_minute", m - 1)
  {
    The31stIsInMonth(c, m);
    ShippedPolicies(0);
    TickedIsTick(c, before, The31st(c, m), DEFAULTS, after);
    LastInstant(c, m);
    ShippedAt(c, before, after, m, 0);
    ShippedAt(c, before, after, m, 1);
    ShippedAt(c, before, after, m, 2);
  }

  lemma ShippedRetention(i: nat)
    requires i < |DEFAULTS|
    ensures if i == 2 then DEFAULTS[i].retention == 30 * DAY else DEFAULTS[i].retention >= 31 * DAY
  {}

  lemma ShippedAt(c: Calendar, before: Schema, after: Schema, m: int, i: nat)
    requires Lawful(c) && Long(c, m) && InRange(m) && i < |DEFAULTS|
      && TickOf(c, before, after, The31st(c, m), DEFAULTS)
    ensures Has(c, after, DEFAULTS[i].table, m - 1) <==> i != 2
  {
    The31stIsInMonth(c, m);
    ShippedRetention(i);
    if i == 2 {
      PreviousMonthUnderThirtyDays(c, before, after, The31st(c, m), DEFAULTS, i);
    } else {
      PreviousMonthUnderLongerRetention(c, before, after, The31st(c, m), DEFAULTS, i);
    }
  }

  /** In the Gregorian calendar every January, for one, is such a month. */
  lemma JanuaryIsLong(year: int)
    requires 2 <= year < 9999
    ensures Long(GREGORIAN, 12 * year) && InRange(12 * year)
  {
    NextMonth(12 * year);
  }
}
