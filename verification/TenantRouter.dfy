/** The tenant cache shared by the ingest loops: services/tenant_routing.py. Every await is a step
    boundary, so refreshes of different loops interleave. */
module TenantRouter {
  import opened Common

  type Key = (string, string)

  type Mapping = map<Key, string>

  /** A row of `collector_sources`. */
  datatype Source = Source(key: Key, tenant: string, active: bool)

  /** `uq_collector_source_kind_id`. */
  predicate UniqueKeys(rows: seq<Source>) { forall i, j :: 0 <= i < j < |rows| ==> rows[i].key != rows[j].key }

  /** The dict made of the active rows, in the order in which they are returned. */
  function ActiveMapping(rows: seq<Source>): Mapping {
    if rows == [] then map[]
    else
      var r := rows[|rows| - 1];
      var init := ActiveMapping(rows[..|rows| - 1]);
      if r.active then init[r.key := r.tenant] else init
  }

  function Lookup(m: Mapping, k: Key): string { if k in m then m[k] else DEFAULT_TENANT_ID }

  predicate Maps(rows: seq<Source>, k: Key, tenant: string) {
    exists i :: 0 <= i < |rows| && rows[i] == Source(k, tenant, true)
  }

  /** The dict holds exactly the active rows, so the order in which rows come back does not matter. */
  lemma {:induction false} MappingHoldsActiveRows(rows: seq<Source>, k: Key, tenant: string)
    requires UniqueKeys(rows)
    ensures k in ActiveMapping(rows) && ActiveMapping(rows)[k] == tenant <==> Maps(rows, k, tenant)
    decreases |rows|
  {
    if rows != [] {
      var n := |rows| - 1;
      MappingHoldsActiveRows(rows[..n], k, tenant);
      assert Maps(rows[..n], k, tenant) ==> Maps(rows, k, tenant) by {
        if i :| 0 <= i < n && rows[..n][i] == Source(k, tenant, true) { assert rows[i] == rows[..n][i]; }
      }
      if i :| 0 <= i < |rows| && rows[i] == Source(k, tenant, true) {
        assert i < n ==> rows[..n][i] == rows[i];
      }
    }
  }

  class Router {
    var cache: Mapping
    var loadedAt: real

    constructor ()
      ensures cache == map[] && loadedAt == 0.0
    {
      cache := map[];
      loadedAt := 0.0;
    }

    /** The end of `refresh`, from the rows the query returned: no await in here. */
    method Install(rows: seq<Source>, now: real) returns (count: nat)
      modifies this
      ensures cache == ActiveMapping(rows) && loadedAt == now && count == |cache|
    {
      var loaded := map[];
      for i := 0 to |rows|
        invariant loaded == ActiveMapping(rows[..i])
      {
        assert rows[..i + 1][..i] == rows[..i];
        if rows[i].active {
          loaded := loaded[rows[i].key := rows[i].tenant];
        }
      }
      assert rows[..|rows|] == rows;
      cache, loadedAt, count := loaded, now, |loaded|;
    }

    /** `tenant_for`, when no other task runs in between: `answer` is what the query would return, None if it fails,
        and `done` the instant at which it would have returned. */
    method TenantFor(k: Key, ttl: int, now: real, answer: Option<seq<Source>>, done: real) returns (tenant: string)
      requires answer.Some? ==> UniqueKeys(answer.value)
      modifies this
      ensures now - old(loadedAt) >= ttl as real && answer.Some? ==>
        loadedAt == done && cache == ActiveMapping(answer.value)
        && (Maps(answer.value, k, tenant) || (tenant == DEFAULT_TENANT_ID && !Mapped(answer.value, k)))
      ensures now - old(loadedAt) < ttl as real || answer.None? ==>
        loadedAt == old(loadedAt) && cache == old(cache) && tenant == Lookup(old(cache), k)
    {
      if now - loadedAt >= ttl as real && answer.Some? {
        var count := Install(answer.value, done);
        MappingAnswers(answer.value, k);
      }
      tenant := if k in cache then cache[k] else DEFAULT_TENANT_ID;
    }
  }

  ghost predicate Mapped(rows: seq<Source>, k: Key) { exists tenant :: Maps(rows, k, tenant) }

  lemma MappingAnswers(rows: seq<Source>, k: Key)
    requires UniqueKeys(rows)
    ensures k in ActiveMapping(rows) ==> Maps(rows, k, ActiveMapping(rows)[k])
    ensures k !in ActiveMapping(rows) ==> !Mapped(rows, k)
  {
    if k in ActiveMapping(rows) {
      MappingHoldsActiveRows(rows, k, ActiveMapping(rows)[k]);
    } else {
      forall tenant
        ensures !Maps(rows, k, tenant)
      {
        MappingHoldsActiveRows(rows, k, tenant);
      }
    }
  }

  // ---------------------------------------------------------------- interleavings

  predicate IsDue(now: real, loadedAt: real, ttl: int) { now - loadedAt >= ttl as real }

  /** Where a task is in `tenant_for`: not in it, waiting for its query, or holding the query's result. */
  datatype Task = Idle | Waiting(key: Key) | Holding(key: Key, version: nat)

  /** How an answer came about. */
  datatype Via = NotDue | Failed | Loaded

  datatype Answer = Answer(key: Key, tenant: string, via: Via, at: real)

  /** `versions` are the contents that `collector_sources` has had, the current one last; `installed` is the
      version in the cache, if a load has completed. */
  datatype State = State(
    now: real, versions: seq<seq<Source>>, cache: Mapping, loadedAt: real, installed: Option<nat>,
    tasks: map<nat, Task>, answer: Option<Answer>)

  datatype Step =
    | Tick(elapsed: real)
    | Reseed(rows: seq<Source>)
    | Ask(task: nat, key: Key)
    | Query(task: nat)
    | Fail(task: nat)
    | Complete(task: nat)

  function TaskOf(s: State, t: nat): Task { if t in s.tasks then s.tasks[t] else Idle }

  function Answered(s: State, t: nat, key: Key, via: Via): State {
    s.(tasks := s.tasks[t := Idle], answer := Some(Answer(key, Lookup(s.cache, key), via, s.now)))
  }

  /** A step that is not possible leaves the state as it is. */
  function Next(s: State, step: Step, ttl: int): State {
    match step
    case Tick(elapsed) => if elapsed >= 0.0 then s.(now := s.now + elapsed, answer := None) else s.(answer := None)
    case Reseed(rows) => s.(versions := s.versions + [rows], answer := None)
    case Ask(t, key) =>
      if TaskOf(s, t) != Idle then s.(answer := None)
      else if IsDue(s.now, s.loadedAt, ttl) then s.(tasks := s.tasks[t := Waiting(key)], answer := None)
      else Answered(s, t, key, NotDue)
    case Query(t) =>
      if TaskOf(s, t).Waiting? && s.versions != []
      then s.(tasks := s.tasks[t := Holding(TaskOf(s, t).key, |s.versions| - 1)], answer := None)
      else s.(answer := None)
    case Fail(t) =>
      if TaskOf(s, t) != Idle then Answered(s, t, TaskOf(s, t).key, Failed) else s.(answer := None)
    case Complete(t) =>
      if TaskOf(s, t).Holding? && TaskOf(s, t).version < |s.versions| then
        var v := TaskOf(s, t).version;
        Answered(s.(cache := ActiveMapping(s.versions[v]), installed := Some(v), loadedAt := s.now), t,
                 TaskOf(s, t).key, Loaded)
      else s.(answer := None)
  }

  // ---------------------------------------------------------------- runs

  function Start(now: real, rows: seq<Source>): State { State(now, [rows], map[], 0.0, None, map[], None) }

  ghost predicate Moves(s: State, step: Step, t: State, ttl: int) { t == Next(s, step, ttl) }

  /** `states` are those before, between and after the steps of any number of tasks. */
  ghost predicate IsRun(states: seq<State>, steps: seq<Step>, ttl: int) {
    |states| == |steps| + 1 && states[0].now >= 0.0 && |states[0].versions| == 1
    && states[0] == Start(states[0].now, states[0].versions[0])
    && forall i :: 0 <= i < |steps| ==> Moves(states[i], steps[i], states[i + 1], ttl)
  }

  /** The cache is the mapping of one whole version, or the empty dict of a router that has not loaded yet; and every
      query in flight holds one whole version too. */
  ghost predicate Whole(s: State) {
    s.versions != [] && s.loadedAt <= s.now
    && (if s.installed.None? then s.cache == map[] && s.loadedAt == 0.0
        else s.installed.value < |s.versions| && s.cache == ActiveMapping(s.versions[s.installed.value]))
    && forall t :: t in s.tasks && s.tasks[t].Holding? ==> s.tasks[t].version < |s.versions|
  }

  lemma NextKeepsWhole(s: State, step: Step, ttl: int)
    requires Whole(s)
    ensures Whole(Next(s, step, ttl))
  {}

  /** However loads interleave, fail and overtake each other, the cache is never a mix of two versions. */
  lemma {:induction false} CacheIsWholeVersion(states: seq<State>, steps: seq<Step>, n: nat, ttl: int)
    requires IsRun(states, steps, ttl) && n <= |steps|
    ensures Whole(states[n])
  {
    if n > 0 {
      CacheIsWholeVersion(states, steps, n - 1, ttl);
      assert Moves(states[n - 1], steps[n - 1], states[n], ttl);
      NextKeepsWhole(states[n - 1], steps[n - 1], ttl);
    }
  }

  predicate Loads(s: State, step: Step) {
    step.Complete? && TaskOf(s, step.task).Holding? && TaskOf(s, step.task).version < |s.versions|
  }

  /** The step count just after the last completed load of the first `n` steps, 0 if there was none. */
  function LastLoad(states: seq<State>, steps: seq<Step>, n: nat): (j: nat)
    requires n <= |steps| < |states|
    ensures j <= n
  {
    if n == 0 then 0
    else if Loads(states[n - 1], steps[n - 1]) then n
    else LastLoad(states, steps, n - 1)
  }

  /** The cache and its age are those that the last completed load left. */
  ghost predicate AsLoaded(states: seq<State>, n: nat, j: nat)
    requires j <= n < |states|
  {
    states[n].cache == states[j].cache
    && (if j == 0 then states[n].loadedAt == 0.0 && states[n].cache == map[] else states[n].loadedAt == states[j].now)
  }

  lemma {:induction false} CacheIsLastLoad(states: seq<State>, steps: seq<Step>, n: nat, ttl: int)
    requires IsRun(states, steps, ttl) && n <= |steps|
    ensures AsLoaded(states, n, LastLoad(states, steps, n))
  {
    if n > 0 {
      CacheIsLastLoad(states, steps, n - 1, ttl);
      assert Moves(states[n - 1], steps[n - 1], states[n], ttl);
    }
  }

  /** Until the clock has reached the TTL nothing loads: no task gets past the test. */
  ghost predicate NotStarted(s: State, ttl: int) {
    s.loadedAt == 0.0 && s.cache == map[] && forall t :: t in s.tasks ==> s.tasks[t] == Idle
  }

  lemma NextNotStarted(s: State, step: Step, ttl: int)
    requires NotStarted(s, ttl) && Next(s, step, ttl).now < ttl as real
    ensures NotStarted(Next(s, step, ttl), ttl)
  {}

  lemma {:induction false} NothingLoadsEarly(states: seq<State>, steps: seq<Step>, n: nat, ttl: int)
    requires IsRun(states, steps, ttl) && n <= |steps| && states[n].now < ttl as real
    ensures NotStarted(states[n], ttl) && LastLoad(states, steps, n) == 0
  {
    if n > 0 {
      assert Moves(states[n - 1], steps[n - 1], states[n], ttl);
      assert states[n - 1].now <= states[n].now;
      NothingLoadsEarly(states, steps, n - 1, ttl);
      NextNotStarted(states[n - 1], steps[n - 1], ttl);
    }
  }

  /** An answer whose refresh was not due or succeeded comes from a load that finished less than the TTL
      ago, or just now, exactly when the clock has reached the TTL; before that it is the default tenant. */
  lemma AnswerIsFreshIff(states: seq<State>, steps: seq<Step>, n: nat, ttl: int)
    requires IsRun(states, steps, ttl) && 0 < n <= |steps|
    requires states[n].answer.Some? && states[n].answer.value.via != Failed
    ensures var a, j := states[n].answer.value, LastLoad(states, steps, n);
      (j > 0 <==> a.at >= ttl as real)
      && (j > 0 ==> (j == n || a.at - states[j].now < ttl as real) && a.tenant == Lookup(states[j].cache, a.key))
      && (j == 0 ==> a.tenant == DEFAULT_TENANT_ID)
  {
    var j := LastLoad(states, steps, n);
    assert Moves(states[n - 1], steps[n - 1], states[n], ttl);
    CacheIsLastLoad(states, steps, n, ttl);
    if states[n].now < ttl as real { NothingLoadsEarly(states, steps, n, ttl); }
    else if j < n { CacheIsLastLoad(states, steps, n - 1, ttl); }
  }

  /** A failed refresh answers from whatever the last completed load left. */
  lemma FailedAnswerIsLastLoad(states: seq<State>, steps: seq<Step>, n: nat, ttl: int)
    requires IsRun(states, steps, ttl) && 0 < n <= |steps|
    requires states[n].answer.Some? && states[n].answer.value.via == Failed
    ensures var a, j := states[n].answer.value, LastLoad(states, steps, n);
      a.tenant == if j > 0 then Lookup(states[j].cache, a.key) else DEFAULT_TENANT_ID
  {
    assert Moves(states[n - 1], steps[n - 1], states[n], ttl);
    CacheIsLastLoad(states, steps, n, ttl);
  }

  // ---------------------------------------------------------------- overtaking

  function Version(s: State): int { if s.installed.Some? then s.installed.value else -1 }

  /** The step is a query that a task was waiting for. */
  predicate Queries(s: State, step: Step, t: nat) {
    step.Query? && step.task == t && TaskOf(s, t).Waiting? && s.versions != []
  }

  /** The step count just after the last query of task `t` among the first `n` steps, 0 if there was none. */
  function LastRead(states: seq<State>, steps: seq<Step>, n: nat, t: nat): (r: nat)
    requires n <= |steps| < |states|
    ensures r <= n
  {
    if n == 0 then 0
    else if Queries(states[n - 1], steps[n - 1], t) then n
    else LastRead(states, steps, n - 1, t)
  }

  /** When the load that is installed after `n` steps had read its rows, 0 if nothing is installed. */
  function InstalledRead(states: seq<State>, steps: seq<Step>, n: nat): (r: nat)
    requires n <= |steps| < |states|
    ensures r <= n
  {
    if n == 0 then 0
    else if Loads(states[n - 1], steps[n - 1]) then LastRead(states, steps, n - 1, steps[n - 1].task)
    else InstalledRead(states, steps, n - 1)
  }

  predicate ReseedBetween(steps: seq<Step>, lo: nat, hi: nat)
    requires hi <= |steps|
  {
    exists i :: lo <= i < hi && steps[i].Reseed?
  }

  /** Told by the schedule alone: step `n` completes a load whose rows were read before a change of the table, and
      those of the load that is installed after it. */
  predicate PutsBack(states: seq<State>, steps: seq<Step>, n: nat)
    requires n < |steps| < |states|
  {
    Loads(states[n], steps[n]) && LastLoad(states, steps, n) > 0
    && ReseedBetween(steps, LastRead(states, steps, n, steps[n].task), InstalledRead(states, steps, n))
  }

  lemma NextVersions(s: State, step: Step, ttl: int)
    ensures |Next(s, step, ttl).versions| == |s.versions| + if step.Reseed? then 1 else 0
  {}

  /** The table gets a new version with each change and at no other step. */
  lemma {:induction false} VersionsGrow(states: seq<State>, steps: seq<Step>, lo: nat, hi: nat, ttl: int)
    requires IsRun(states, steps, ttl) && lo <= hi <= |steps|
    ensures |states[lo].versions| <= |states[hi].versions|
    ensures |states[lo].versions| < |states[hi].versions| <==> ReseedBetween(steps, lo, hi)
    decreases hi
  {
    if lo < hi {
      VersionsGrow(states, steps, lo, hi - 1, ttl);
      assert Moves(states[hi - 1], steps[hi - 1], states[hi], ttl);
      NextVersions(states[hi - 1], steps[hi - 1], ttl);
      if steps[hi - 1].Reseed? { assert ReseedBetween(steps, lo, hi); }
    }
  }

  /** What a task holds after a step it read in that step or held before. */
  lemma NextHeld(s: State, step: Step, t: nat, ttl: int)
    requires TaskOf(Next(s, step, ttl), t).Holding?
    ensures if Queries(s, step, t) then
        TaskOf(Next(s, step, ttl), t).version == |s.versions| - 1 && Next(s, step, ttl).versions == s.versions
      else TaskOf(s, t) == TaskOf(Next(s, step, ttl), t)
  {}

  /** A task holds the version that was current when it last read. */
  lemma {:induction false} HeldIsRead(states: seq<State>, steps: seq<Step>, n: nat, t: nat, ttl: int)
    requires IsRun(states, steps, ttl) && n <= |steps| && TaskOf(states[n], t).Holding?
    ensures TaskOf(states[n], t).version == |states[LastRead(states, steps, n, t)].versions| - 1
  {
    if n > 0 {
      assert Moves(states[n - 1], steps[n - 1], states[n], ttl);
      NextHeld(states[n - 1], steps[n - 1], t, ttl);
      if !Queries(states[n - 1], steps[n - 1], t) { HeldIsRead(states, steps, n - 1, t, ttl); }
    }
  }

  lemma NextInstalled(s: State, step: Step, ttl: int)
    ensures Next(s, step, ttl).installed == if Loads(s, step) then Some(TaskOf(s, step.task).version) else s.installed
  {}

  /** What is installed is the version that was current when its load had read its rows. */
  lemma {:induction false} InstalledIsRead(states: seq<State>, steps: seq<Step>, n: nat, ttl: int)
    requires IsRun(states, steps, ttl) && n <= |steps|
    ensures LastLoad(states, steps, n) == 0 ==> states[n].installed == None
    ensures LastLoad(states, steps, n) > 0 ==>
      states[n].installed == Some(|states[InstalledRead(states, steps, n)].versions| - 1)
  {
    if n > 0 {
      assert Moves(states[n - 1], steps[n - 1], states[n], ttl);
      NextInstalled(states[n - 1], steps[n - 1], ttl);
      if Loads(states[n - 1], steps[n - 1]) {
        HeldIsRead(states, steps, n - 1, steps[n - 1].task, ttl);
      } else {
        InstalledIsRead(states, steps, n - 1, ttl);
      }
    }
  }

  lemma ReadsCompare(states: seq<State>, steps: seq<Step>, a: nat, b: nat, ttl: int)
    requires IsRun(states, steps, ttl) && a <= |steps| && b <= |steps|
    ensures |states[a].versions| < |states[b].versions| <==> ReseedBetween(steps, a, b)
  {
    if a <= b { VersionsGrow(states, steps, a, b, ttl); } else { VersionsGrow(states, steps, b, a, ttl); }
  }

  /** A step takes the cache back to an older version exactly when it completes a load that had read its rows before a
      change of the table, while those of the load it replaces were read after. */
  lemma GoesBackIff(states: seq<State>, steps: seq<Step>, n: nat, ttl: int)
    requires IsRun(states, steps, ttl) && n < |steps|
    ensures Version(states[n + 1]) < Version(states[n]) <==> PutsBack(states, steps, n)
  {
    assert Moves(states[n], steps[n], states[n + 1], ttl);
    NextInstalled(states[n], steps[n], ttl);
    InstalledIsRead(states, steps, n, ttl);
    if Loads(states[n], steps[n]) {
      var t := steps[n].task;
      HeldIsRead(states, steps, n, t, ttl);
      ReadsCompare(states, steps, LastRead(states, steps, n, t), InstalledRead(states, steps, n), ttl);
    }
  }

  ghost predicate NeverBack(states: seq<State>, n: nat)
    requires n < |states|
  {
    forall i, j :: 0 <= i <= j <= n ==> Version(states[i]) <= Version(states[j])
  }

  ghost predicate GoesBack(states: seq<State>, i: nat)
    requires i + 1 < |states|
  {
    Version(states[i + 1]) < Version(states[i])
  }

  lemma {:induction false} NeverBackByStep(states: seq<State>, n: nat)
    requires n < |states|
    ensures NeverBack(states, n) <==> forall i :: 0 <= i < n ==> !GoesBack(states, i)
  {
    if n > 0 {
      NeverBackByStep(states, n - 1);
      NeverBackNext(states, n);
    }
  }

  lemma NeverBackNext(states: seq<State>, n: nat)
    requires 0 < n < |states|
    ensures NeverBack(states, n) <==> NeverBack(states, n - 1) && !GoesBack(states, n - 1)
  {}

  /** However many loops share the cache, it never goes back to an older version exactly when no load completes after
      one that read later, with a change of the table between the two reads. */
  lemma NeverGoesBackIff(states: seq<State>, steps: seq<Step>, n: nat, ttl: int)
    requires IsRun(states, steps, ttl) && n <= |steps|
    ensures NeverBack(states, n) <==> forall i :: 0 <= i < n ==> !PutsBack(states, steps, i)
  {
    NeverBackByStep(states, n);
    forall i | 0 <= i < n
      ensures GoesBack(states, i) <==> PutsBack(states, steps, i)
    {
      GoesBackIff(states, steps, i, ttl);
    }
  }

  // ---------------------------------------------------------------- one loop

  predicate OneLoop(steps: seq<Step>) { forall i :: 0 <= i < |steps| && steps[i].Ask? ==> steps[i].task == 0 }

  /** With one loop nothing overtakes: what is in flight is at least as new as what is installed. */
  ghost predicate InOrder(s: State) {
    s.versions != [] && Version(s) < |s.versions|
    && (forall t :: t in s.tasks && t != 0 ==> s.tasks[t] == Idle)
    && (TaskOf(s, 0).Holding? ==> TaskOf(s, 0).version >= Version(s))
  }

  lemma NextInOrder(s: State, step: Step, ttl: int)
    requires InOrder(s) && (step.Ask? ==> step.task == 0)
    ensures InOrder(Next(s, step, ttl))
  {}

  lemma {:induction false} OneLoopInOrder(states: seq<State>, steps: seq<Step>, n: nat, ttl: int)
    requires IsRun(states, steps, ttl) && n <= |steps| && OneLoop(steps)
    ensures InOrder(states[n])
  {
    if n > 0 {
      OneLoopInOrder(states, steps, n - 1, ttl);
      assert Moves(states[n - 1], steps[n - 1], states[n], ttl);
      NextInOrder(states[n - 1], steps[n - 1], ttl);
    }
  }

  /** The only loop has read no earlier than the load it installed. */
  lemma {:induction false} OneLoopReadsLast(states: seq<State>, steps: seq<Step>, n: nat, ttl: int)
    requires IsRun(states, steps, ttl) && n <= |steps| && OneLoop(steps)
    ensures InstalledRead(states, steps, n) <= LastRead(states, steps, n, 0)
  {
    if n > 0 {
      OneLoopReadsLast(states, steps, n - 1, ttl);
      OneLoopInOrder(states, steps, n - 1, ttl);
    }
  }

  /** A single loop never goes back to an older version. */
  lemma OneLoopNeverGoesBack(states: seq<State>, steps: seq<Step>, m: nat, n: nat, ttl: int)
    requires IsRun(states, steps, ttl) && m <= n <= |steps| && OneLoop(steps)
    ensures InOrder(states[n]) && Version(states[m]) <= Version(states[n])
  {
    OneLoopInOrder(states, steps, n, ttl);
    forall i | 0 <= i < n
      ensures !PutsBack(states, steps, i)
    {
      OneLoopReadsLast(states, steps, i, ttl);
      OneLoopInOrder(states, steps, i, ttl);
    }
    NeverGoesBackIff(states, steps, n, ttl);
  }

  // ---------------------------------------------------------------- two loops

  /** Two loops, the first with its rows read before the second even asks. */
  function Overtaken(s: State, k: Key, rows: seq<Source>, ttl: int): State {
    var a := Next(Next(s, Ask(0, k), ttl), Query(0), ttl);
    var b := Next(Next(Next(a, Reseed(rows), ttl), Ask(1, k), ttl), Query(1), ttl);
    Next(b, Complete(1), ttl)
  }

  /** Both loops hold their rows, the first older ones than the second. */
  function BothHold(now: real, k: Key, older: seq<Source>, newer: seq<Source>): State {
    Start(now, older).(tasks := map[0 := Holding(k, 0), 1 := Holding(k, 1)], versions := [older, newer])
  }

  lemma FirstHolds(now: real, ttl: int, k: Key, older: seq<Source>)
    requires now >= ttl as real
    ensures Next(Next(Start(now, older), Ask(0, k), ttl), Query(0), ttl)
         == Start(now, older).(tasks := map[0 := Holding(k, 0)])
  {}

  lemma BothComeToHold(now: real, ttl: int, k: Key, older: seq<Source>, newer: seq<Source>)
    requires now >= ttl as real
    ensures Overtaken(Start(now, older), k, newer, ttl) == Next(BothHold(now, k, older, newer), Complete(1), ttl)
  {
    FirstHolds(now, ttl, k, older);
    var a := Start(now, older).(tasks := map[0 := Holding(k, 0)]);
    assert Next(Next(Next(a, Reseed(newer), ttl), Ask(1, k), ttl), Query(1), ttl) == BothHold(now, k, older, newer);
  }

  lemma Completes(s: State, t: nat, ttl: int)
    requires TaskOf(s, t).Holding? && TaskOf(s, t).version < |s.versions|
    ensures var after := Next(s, Complete(t), ttl);
      after.cache == ActiveMapping(s.versions[TaskOf(s, t).version]) && after.loadedAt == s.now == after.now
      && after.versions == s.versions && TaskOf(after, t) == Idle
      && forall u :: u != t ==> TaskOf(after, u) == TaskOf(s, u)
  {}

  lemma AsksInTime(s: State, t: nat, k: Key, ttl: int)
    requires TaskOf(s, t) == Idle && !IsDue(s.now, s.loadedAt, ttl)
    ensures Next(s, Ask(t, k), ttl).answer == Some(Answer(k, Lookup(s.cache, k), NotDue, s.now))
  {}

  /** From any state in which both loops hold their rows. */
  lemma SlowerCompletesLast(b: State, ttl: int, k: Key)
    requires TaskOf(b, 0) == Holding(k, 0) && TaskOf(b, 1) == Holding(k, 1) && |b.versions| == 2 && ttl > 0
    ensures var s := Next(b, Complete(1), ttl);
      var t := Next(s, Complete(0), ttl);
      s.cache == ActiveMapping(b.versions[1]) && t.cache == ActiveMapping(b.versions[0]) && t.loadedAt == b.now
      && Next(t, Ask(1, k), ttl).answer == Some(Answer(k, Lookup(ActiveMapping(b.versions[0]), k), NotDue, b.now))
  {
    Completes(b, 1, ttl);
    var s := Next(b, Complete(1), ttl);
    Completes(s, 0, ttl);
    AsksInTime(Next(s, Complete(0), ttl), 1, k, ttl);
  }

  /** With two loops a slow refresh can put an older version back over a newer one, and callers are then
      told the old tenant for another TTL. */
  lemma SlowRefreshPutsOldVersionBack(now: real, ttl: int, k: Key, older: seq<Source>, newer: seq<Source>)
    requires now >= ttl as real && ttl > 0
    ensures var s := Overtaken(Start(now, older), k, newer, ttl);
      var t := Next(s, Complete(0), ttl);
      s.cache == ActiveMapping(newer) && t.cache == ActiveMapping(older) && t.loadedAt == now
    ensures var t := Next(Overtaken(Start(now, older), k, newer, ttl), Complete(0), ttl);
      Next(t, Ask(1, k), ttl).answer == Some(Answer(k, Lookup(ActiveMapping(older), k), NotDue, now))
  {
    BothComeToHold(now, ttl, k, older, newer);
    SlowerCompletesLast(BothHold(now, k, older, newer), ttl, k);
  }
}
