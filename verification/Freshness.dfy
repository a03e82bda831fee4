/** Source heartbeats and the scanner that raises silent sources: services/source_freshness.py. */
module Freshness {
  import opened Common
  import Fingerprints
  import D = AnomalyDedup

  /** In the order in which a source degrades. */
  datatype Status = Fresh | Stale | Silent

  datatype Source = Source(
    tenant: string, kind: string, device: string, lastIngest: int, samples: int, status: Status, updatedAt: int)

  /** Instants and durations are in microseconds. */
  const SECOND := 1_000_000

  const SILENT_MULTIPLIER := 5

  function Threshold(kind: string): int {
    if kind == "sflow" then 180 * SECOND else if kind == "gnmi" then 90 * SECOND else 300 * SECOND
  }

  function Classify(now: int, lastIngest: int, kind: string): Status {
    var age := now - lastIngest;
    if age >= Threshold(kind) * SILENT_MULTIPLIER then Silent
    else if age >= Threshold(kind) then Stale
    else Fresh
  }

  function Level(s: Status): nat { match s case Fresh => 0 case Stale => 1 case Silent => 2 }

  // ---------------------------------------------------------------- steps

  datatype State = State(sources: seq<Source>, rows: seq<D.Row>)

  predicate Is(s: Source, tenant: string, kind: string, device: string) {
    s.tenant == tenant && s.kind == kind && s.device == device
  }

  predicate SameSource(a: Source, b: Source) { Is(a, b.tenant, b.kind, b.device) }

  /** `uq_source_freshness`. */
  predicate DistinctSources(sources: seq<Source>) {
    forall i, j :: 0 <= i < j < |sources| ==> !SameSource(sources[i], sources[j])
  }

  /** Where a source is, or the length of the list. */
  function Place(sources: seq<Source>, tenant: string, kind: string, device: string): (k: nat)
    ensures k <= |sources| && (k < |sources| ==> Is(sources[k], tenant, kind, device))
    ensures k == |sources| ==> forall i :: 0 <= i < |sources| ==> !Is(sources[i], tenant, kind, device)
  {
    if sources == [] then 0
    else
      var k := Place(sources[..|sources| - 1], tenant, kind, device);
      if k < |sources| - 1 || Is(sources[k], tenant, kind, device) then k else |sources|
  }

  lemma PlaceIs(sources: seq<Source>, i: nat)
    requires DistinctSources(sources) && i < |sources|
    ensures Place(sources, sources[i].tenant, sources[i].kind, sources[i].device) == i
  {
    var k := Place(sources, sources[i].tenant, sources[i].kind, sources[i].device);
    if k < i { assert SameSource(sources[k], sources[i]); }
    if i < k && k < |sources| { assert SameSource(sources[i], sources[k]); }
  }

  datatype Beat = Beat(tenant: string, kind: string, device: string, samples: int, now: int)

  predicate For(b: Beat, s: Source) { Is(s, b.tenant, b.kind, b.device) }

  function Beaten(sources: seq<Source>, b: Beat): seq<Source> {
    var k := Place(sources, b.tenant, b.kind, b.device);
    var s := Source(b.tenant, b.kind, b.device, b.now, b.samples, Fresh, b.now);
    if k < |sources| then sources[k := s] else sources + [s]
  }

  /** The row after the scanner has written back what it found. */
  function Rated(s: Source, now: int): Source {
    var status := Classify(now, s.lastIngest, s.kind);
    if status != s.status then s.(status := status, updatedAt := now) else s
  }

  /** What the scanner reports of a silent source; instants are not rendered. */
  function Report(s: Source, now: int): D.Finding {
    D.Finding(s.tenant, "device:" + s.device, "collector_silent", "critical", s.kind + " collector for " + s.device,
              None, Fingerprints.SilentFingerprint(s.tenant, s.kind, s.device), now)
  }

  predicate IsSilent(s: Source, now: int) { Classify(now, s.lastIngest, s.kind) == Silent }

  function Raised(rows: seq<D.Row>, s: Source, now: int): seq<D.Row> {
    if IsSilent(s, now) then D.Applied(rows, D.Record(Report(s, now))) else rows
  }

  /** The events after the scanner has been through `sources`, in order. */
  function RaisedAll(rows: seq<D.Row>, sources: seq<Source>, now: int): seq<D.Row> {
    if sources == [] then rows
    else Raised(RaisedAll(rows, sources[..|sources| - 1], now), sources[|sources| - 1], now)
  }

  function RatedAll(sources: seq<Source>, now: int): (rated: seq<Source>)
    ensures |rated| == |sources| && forall i :: 0 <= i < |rated| ==> rated[i] == Rated(sources[i], now)
  {
    seq(|sources|, i requires 0 <= i < |sources| => Rated(sources[i], now))
  }

  /** `Other` is any statement on the events but an upsert: nothing but the scanner records. */
  datatype Step = Heartbeat(b: Beat) | Scan(now: int) | Other(step: D.Step)

  function After(s: State, step: Step): State {
    match step
    case Heartbeat(b) => s.(sources := Beaten(s.sources, b))
    case Scan(now) => State(RatedAll(s.sources, now), RaisedAll(s.rows, s.sources, now))
    case Other(e) => s.(rows := D.Applied(s.rows, e))
  }

  lemma {:induction false} RaisedAllSound(rows: seq<D.Row>, sources: seq<Source>, now: int)
    requires D.Sound(rows)
    ensures D.Sound(RaisedAll(rows, sources, now))
    decreases |sources|
  {
    if sources != [] {
      var init, last := sources[..|sources| - 1], sources[|sources| - 1];
      RaisedAllSound(rows, init, now);
      D.AppliedKeepsSound(RaisedAll(rows, init, now), D.Record(Report(last, now)));
    }
  }

  lemma BeatenStaysDistinct(sources: seq<Source>, b: Beat)
    requires DistinctSources(sources)
    ensures DistinctSources(Beaten(sources, b))
  {
    var k, after := Place(sources, b.tenant, b.kind, b.device), Beaten(sources, b);
    forall i, j | 0 <= i < j < |after|
      ensures !SameSource(after[i], after[j])
    {
      if j < |sources| { assert !SameSource(sources[i], sources[j]); }
    }
  }

  lemma RatedStaysDistinct(sources: seq<Source>, now: int)
    requires DistinctSources(sources)
    ensures DistinctSources(RatedAll(sources, now))
  {
    var after := RatedAll(sources, now);
    forall i, j | 0 <= i < j < |after|
      ensures !SameSource(after[i], after[j])
    {
      assert !SameSource(sources[i], sources[j]);
    }
  }

  datatype Seen = Seen(tenant: string, kind: string, device: string, lastIngest: int, status: Status)

  class FreshnessService {
    var sources: seq<Source>
    const events: D.AnomalyTable

    ghost predicate Valid()
      reads this, events
    {
      DistinctSources(sources) && D.Sound(events.rows)
    }

    ghost function Now(): State
      reads this, events
    {
      State(sources, events.rows)
    }

    constructor (events: D.AnomalyTable)
      requires D.Sound(events.rows)
      ensures Valid() && this.events == events && sources == [] && events.rows == old(events.rows)
    {
      this.events := events;
      sources := [];
    }

    method RecordHeartbeat(b: Beat)
      requires Valid()
      modifies this`sources
      ensures Valid() && Now() == After(old(Now()), Heartbeat(b))
    {
      BeatenStaysDistinct(sources, b);
      var s := Source(b.tenant, b.kind, b.device, b.now, b.samples, Fresh, b.now);
      if k :| 0 <= k < |sources| && For(b, sources[k]) {
        PlaceIs(sources, k);
        sources := sources[k := s];
      } else {
        sources := sources + [s];
      }
    }

    /** One pass of the scanner's loop. */
    method ScanOne(i: nat, now: int) returns (seen: Seen)
      requires i < |sources| && D.Sound(events.rows)
      modifies this`sources, events
      ensures sources == old(sources)[i := Rated(old(sources)[i], now)]
      ensures D.Sound(events.rows) && events.rows == Raised(old(events.rows), old(sources)[i], now)
      ensures seen == SeenAs(sources[i])
    {
      var s := sources[i];
      var status := Classify(now, s.lastIngest, s.kind);
      if status != s.status {
        sources := sources[i := s.(status := status, updatedAt := now)];
      }
      if status == Silent {
        var reply := events.Upsert(Report(s, now));
      }
      seen := Seen(s.tenant, s.kind, s.device, s.lastIngest, status);
    }

    /** `scan_stale_sources`, the sources as one SELECT returned them. */
    method ScanStaleSources(now: int) returns (findings: seq<Seen>)
      requires Valid()
      modifies this`sources, events
      ensures Valid() && Now() == After(old(Now()), Scan(now))
      ensures |findings| == |sources| == |old(sources)|
      ensures forall i :: 0 <= i < |findings| ==>
        findings[i] == Seen(sources[i].tenant, sources[i].kind, sources[i].device, sources[i].lastIngest,
                            sources[i].status)
    {
      ghost var before, rows := sources, events.rows;
      var n := |sources|;
      findings := [];
      for i := 0 to n
        invariant |sources| == n && D.Sound(events.rows)
        invariant Midway(before, now, i, sources, findings)
        invariant events.rows == RaisedAll(rows, before[..i], now)
      {
        ghost var midway := sources;
        var seen := ScanOne(i, now);
        MidwayNext(before, now, i, midway, findings, seen);
        findings := findings + [seen];
        RaisedNext(rows, before, now, i);
      }
      RatedStaysDistinct(before, now);
      assert before[..n] == before;
      assert sources == RatedAll(before, now);
    }
  }

  /** The scanner has been through the first `i` sources. */
  ghost predicate Midway(before: seq<Source>, now: int, i: nat, sources: seq<Source>, findings: seq<Seen>) {
    |sources| == |before| && |findings| == i <= |before|
    && (forall j :: 0 <= j < i ==> sources[j] == Rated(before[j], now) && findings[j] == SeenAs(sources[j]))
    && (forall j :: i <= j < |before| ==> sources[j] == before[j])
  }

  lemma MidwayNext(before: seq<Source>, now: int, i: nat, sources: seq<Source>, findings: seq<Seen>, seen: Seen)
    requires Midway(before, now, i, sources, findings) && i < |before| && seen == SeenAs(Rated(sources[i], now))
    ensures sources[i] == before[i]
    ensures Midway(before, now, i + 1, sources[i := Rated(sources[i], now)], findings + [seen])
  {}

  lemma RaisedNext(rows: seq<D.Row>, sources: seq<Source>, now: int, i: nat)
    requires i < |sources|
    ensures RaisedAll(rows, sources[..i + 1], now) == Raised(RaisedAll(rows, sources[..i], now), sources[i], now)
  {
    assert sources[..i + 1][..i] == sources[..i];
  }

  function SeenAs(s: Source): Seen { Seen(s.tenant, s.kind, s.device, s.lastIngest, s.status) }

  // ---------------------------------------------------------------- runs

  ghost predicate Moves(before: State, step: Step, after: State) { after == After(before, step) }

  /** `states` are those before, between and after the steps; there are no sources at first. */
  ghost predicate IsRun(states: seq<State>, steps: seq<Step>) {
    |states| == |steps| + 1 && states[0].sources == [] && D.Sound(states[0].rows)
    && forall i :: 0 <= i < |steps| ==> Moves(states[i], steps[i], states[i + 1])
  }

  predicate OnlyScansRecord(steps: seq<Step>) {
    forall i :: 0 <= i < |steps| && steps[i].Other? ==> !steps[i].step.Record?
  }

  ghost predicate Good(s: State) { DistinctSources(s.sources) && D.Sound(s.rows) }

  lemma {:induction false} RunsStayGood(states: seq<State>, steps: seq<Step>, n: nat)
    requires IsRun(states, steps) && n <= |steps|
    ensures Good(states[n])
  {
    if n > 0 {
      RunsStayGood(states, steps, n - 1);
      var s := states[n - 1];
      assert Moves(s, steps[n - 1], states[n]);
      match steps[n - 1]
      case Heartbeat(b) => BeatenStaysDistinct(s.sources, b);
      case Scan(now) => RatedStaysDistinct(s.sources, now); RaisedAllSound(s.rows, s.sources, now);
      case Other(e) => D.AppliedKeepsSound(s.rows, e);
    }
  }

  // ---------------------------------------------------------------- statuses

  function NextScan(before: Option<int>, step: Step, tenant: string, kind: string, device: string): Option<int> {
    match step
    case Heartbeat(b) => if b.tenant == tenant && b.kind == kind && b.device == device then None else before
    case Scan(now) => Some(now)
    case Other(_) => before
  }

  /** When the source was last scanned since its last heartbeat. */
  function LastScan(steps: seq<Step>, n: nat, tenant: string, kind: string, device: string): Option<int>
    requires n <= |steps|
  {
    if n == 0 then None
    else NextScan(LastScan(steps, n - 1, tenant, kind, device), steps[n - 1], tenant, kind, device)
  }

  predicate StatusFits(s: Source, scan: Option<int>) {
    s.status == if scan.None? then Fresh else Classify(scan.value, s.lastIngest, s.kind)
  }

  lemma StepFits(before: State, step: Step, i: nat, scan: Option<int>)
    requires DistinctSources(before.sources) && i < |After(before, step).sources|
    requires i < |before.sources| ==> StatusFits(before.sources[i], scan)
    ensures var s := After(before, step).sources[i];
      StatusFits(s, NextScan(scan, step, s.tenant, s.kind, s.device))
    ensures i < |before.sources| ==> SameSource(before.sources[i], After(before, step).sources[i])
  {
    var s := After(before, step).sources[i];
    if step.Heartbeat? {
      if i < |before.sources| && For(step.b, before.sources[i]) { PlaceIs(before.sources, i); }
    }
  }

  /** A source's status is always that of its last scan since its last heartbeat; fresh without one. */
  lemma {:induction false} StatusIsLastScan(states: seq<State>, steps: seq<Step>, n: nat, i: nat)
    requires IsRun(states, steps) && n <= |steps| && i < |states[n].sources|
    ensures var s := states[n].sources[i];
      StatusFits(s, LastScan(steps, n, s.tenant, s.kind, s.device))
  {
    if n > 0 {
      RunsStayGood(states, steps, n - 1);
      assert Moves(states[n - 1], steps[n - 1], states[n]);
      var before, s := states[n - 1], states[n].sources[i];
      if i < |before.sources| { StatusIsLastScan(states, steps, n - 1, i); SameKey(before, steps[n - 1], i); }
      StepFits(before, steps[n - 1], i, LastScan(steps, n - 1, s.tenant, s.kind, s.device));
    }
  }

  lemma SameKey(before: State, step: Step, i: nat)
    requires i < |before.sources|
    ensures i < |After(before, step).sources| && SameSource(before.sources[i], After(before, step).sources[i])
  {}

  lemma ClassifyRises(early: int, late: int, lastIngest: int, kind: string)
    requires early <= late
    ensures Level(Classify(early, lastIngest, kind)) <= Level(Classify(late, lastIngest, kind))
  {}

  predicate ScansRise(steps: seq<Step>) {
    forall i, j :: 0 <= i < j < |steps| && steps[i].Scan? && steps[j].Scan? ==> steps[i].now <= steps[j].now
  }

  lemma {:induction false} LastScanRises(steps: seq<Step>, n: nat, j: nat, tenant: string, kind: string, device: string)
    requires n <= j < |steps| && ScansRise(steps) && steps[j].Scan?
    requires LastScan(steps, n, tenant, kind, device).Some?
    ensures LastScan(steps, n, tenant, kind, device).value <= steps[j].now
  {
    if !steps[n - 1].Scan? { LastScanRises(steps, n - 1, j, tenant, kind, device); }
  }

  /** A step that is no heartbeat of the source never takes its status down, the clock of the scans rising:
      fresh, then stale, then silent. */
  lemma StatusOnlyRises(states: seq<State>, steps: seq<Step>, n: nat, i: nat)
    requires IsRun(states, steps) && n < |steps| && i < |states[n].sources| && ScansRise(steps)
    requires steps[n].Heartbeat? ==> !For(steps[n].b, states[n].sources[i])
    ensures i < |states[n + 1].sources|
    ensures var s, t := states[n].sources[i], states[n + 1].sources[i];
      SameSource(s, t) && t.lastIngest == s.lastIngest && Level(s.status) <= Level(t.status)
  {
    var s := states[n].sources[i];
    if steps[n].Scan? {
      StatusIsLastScan(states, steps, n, i);
      var scan := LastScan(steps, n, s.tenant, s.kind, s.device);
      if scan.Some? {
        LastScanRises(steps, n, n, s.tenant, s.kind, s.device);
        ClassifyRises(scan.value, steps[n].now, s.lastIngest, s.kind);
      }
    }
  }

  /** Right after a scan every status is what `classify` says. */
  lemma ScanSettles(states: seq<State>, steps: seq<Step>, n: nat, i: nat)
    requires IsRun(states, steps) && n < |steps| && steps[n].Scan? && i < |states[n + 1].sources|
    ensures var s := states[n + 1].sources[i]; s.status == Classify(steps[n].now, s.lastIngest, s.kind)
  {
    assert Moves(states[n], steps[n], states[n + 1]);
  }

  // ---------------------------------------------------------------- ages

  function NextBeat(before: Option<Beat>, step: Step, tenant: string, kind: string, device: string): Option<Beat> {
    if step.Heartbeat? && step.b.tenant == tenant && step.b.kind == kind && step.b.device == device then Some(step.b)
    else before
  }

  /** The last heartbeat of a source. */
  function LastBeat(steps: seq<Step>, n: nat, tenant: string, kind: string, device: string): Option<Beat>
    requires n <= |steps|
  {
    if n == 0 then None
    else NextBeat(LastBeat(steps, n - 1, tenant, kind, device), steps[n - 1], tenant, kind, device)
  }

  predicate Beats(s: Source, beat: Option<Beat>) {
    beat.Some? && s.lastIngest == beat.value.now && s.samples == beat.value.samples
  }

  lemma StepBeats(before: State, step: Step, i: nat, beat: Option<Beat>)
    requires DistinctSources(before.sources) && i < |After(before, step).sources|
    requires i < |before.sources| ==> Beats(before.sources[i], beat)
    ensures var s := After(before, step).sources[i]; Beats(s, NextBeat(beat, step, s.tenant, s.kind, s.device))
  {
    if step.Heartbeat? {
      if i < |before.sources| && For(step.b, before.sources[i]) { PlaceIs(before.sources, i); }
    }
  }

  /** What is kept of a source is its last heartbeat. */
  lemma {:induction false} SourceIsLastBeat(states: seq<State>, steps: seq<Step>, n: nat, i: nat)
    requires IsRun(states, steps) && n <= |steps| && i < |states[n].sources|
    ensures var s := states[n].sources[i]; Beats(s, LastBeat(steps, n, s.tenant, s.kind, s.device))
  {
    if n > 0 {
      RunsStayGood(states, steps, n - 1);
      assert Moves(states[n - 1], steps[n - 1], states[n]);
      var before, s := states[n - 1], states[n].sources[i];
      if i < |before.sources| { SourceIsLastBeat(states, steps, n - 1, i); SameKey(before, steps[n - 1], i); }
      StepBeats(before, steps[n - 1], i, LastBeat(steps, n - 1, s.tenant, s.kind, s.device));
    }
  }

  /** `updated_at` is the instant of the last change: a heartbeat, or a scan that found another status. */
  lemma ChangeIsStamped(states: seq<State>, steps: seq<Step>, n: nat, i: nat)
    requires IsRun(states, steps) && n < |steps| && i < |states[n].sources|
    ensures i < |states[n + 1].sources|
    ensures var s, t := states[n].sources[i], states[n + 1].sources[i];
      t.updatedAt
      == match steps[n]
         case Heartbeat(b) =>
           if b.tenant == s.tenant && b.kind == s.kind && b.device == s.device then b.now else s.updatedAt
         case Scan(now) => if t.status != s.status then now else s.updatedAt
         case Other(_) => s.updatedAt
  {
    RunsStayGood(states, steps, n);
    assert Moves(states[n], steps[n], states[n + 1]);
    if steps[n].Heartbeat? && For(steps[n].b, states[n].sources[i]) { PlaceIs(states[n].sources, i); }
  }

  predicate Tracked(sources: seq<Source>, tenant: string, kind: string, device: string) {
    exists i :: 0 <= i < |sources| && Is(sources[i], tenant, kind, device)
  }

  lemma StepTracks(before: State, step: Step, tenant: string, kind: string, device: string)
    ensures Tracked(After(before, step).sources, tenant, kind, device)
       <==> Tracked(before.sources, tenant, kind, device) || NextBeat(None, step, tenant, kind, device).Some?
  {
    var after := After(before, step).sources;
    if i :| 0 <= i < |before.sources| && Is(before.sources[i], tenant, kind, device) {
      SameKey(before, step, i);
      assert Is(after[i], tenant, kind, device);
    }
    if i :| 0 <= i < |after| && Is(after[i], tenant, kind, device) {
      if i < |before.sources| { SameKey(before, step, i); assert Is(before.sources[i], tenant, kind, device); }
    }
    if NextBeat(None, step, tenant, kind, device).Some? {
      var k := Place(before.sources, tenant, kind, device);
      assert Is(after[k], tenant, kind, device);
    }
  }

  /** A source is tracked exactly if it ever sent a heartbeat. */
  lemma {:induction false} TrackedIff(states: seq<State>, steps: seq<Step>, n: nat, tenant: string, kind: string,
                                      device: string)
    requires IsRun(states, steps) && n <= |steps|
    ensures Tracked(states[n].sources, tenant, kind, device) <==> LastBeat(steps, n, tenant, kind, device).Some?
  {
    if n > 0 {
      TrackedIff(states, steps, n - 1, tenant, kind, device);
      assert Moves(states[n - 1], steps[n - 1], states[n]);
      StepTracks(states[n - 1], steps[n - 1], tenant, kind, device);
    }
  }

  /** A scan goes by the age of the last heartbeat: stale from three minutes for sFlow, 90 seconds for gNMI and five
      minutes for anything else, silent from five times that. */
  lemma ScanGoesByAge(states: seq<State>, steps: seq<Step>, n: nat, i: nat)
    requires IsRun(states, steps) && n < |steps| && steps[n].Scan? && i < |states[n + 1].sources|
    ensures var s := states[n + 1].sources[i];
      var beat := LastBeat(steps, n, s.tenant, s.kind, s.device);
      var limit := if s.kind == "sflow" then 180_000_000 else if s.kind == "gnmi" then 90_000_000 else 300_000_000;
      beat.Some?
      && (s.status == Fresh <==> steps[n].now - beat.value.now < limit)
      && (s.status == Stale <==> limit <= steps[n].now - beat.value.now < 5 * limit)
      && (s.status == Silent <==> 5 * limit <= steps[n].now - beat.value.now)
  {
    assert Moves(states[n], steps[n], states[n + 1]);
    SourceIsLastBeat(states, steps, n, i);
  }

  /** A scan writes back over a heartbeat that came after its SELECT; `now` is the scan's instant. */
  function WrittenBack(current: Source, read: Source, now: int): Source {
    var status := Classify(now, read.lastIngest, read.kind);
    if status != read.status then current.(status := status, updatedAt := now) else current
  }

  /** When a heartbeat slips in between, the status is right afterwards exactly when the scan had nothing
      to write for the row or found it fresh. */
  lemma InterleavedHeartbeatIff(read: Source, b: Beat, now: int)
    requires For(b, read) && now - b.now < Threshold(read.kind)
    ensures var s := WrittenBack(Beaten([read], b)[0], read, now);
      s.status == Classify(now, s.lastIngest, s.kind)
      <==> Classify(now, read.lastIngest, read.kind) in {Fresh, read.status}
  {
    PlaceIs([read], 0);
  }

  // ---------------------------------------------------------------- silent events

  function Silence(s: Source): string { Fingerprints.SilentFingerprint(s.tenant, s.kind, s.device) }

  function Count(rows: seq<D.Row>, tenant: string, kind: string, device: string): Option<int> {
    D.OpenCount(rows, tenant, Fingerprints.SilentFingerprint(tenant, kind, device))
  }

  function More(count: Option<int>): Option<int> { D.Affected(count, D.Counts) }

  /** Raising one source counts for that source and for no other. */
  lemma RaisedCounts(rows: seq<D.Row>, s: Source, now: int, tenant: string, kind: string, device: string)
    requires D.Sound(rows)
    ensures D.Sound(Raised(rows, s, now))
    ensures Count(Raised(rows, s, now), tenant, kind, device)
         == if Is(s, tenant, kind, device) && IsSilent(s, now) then More(Count(rows, tenant, kind, device))
            else Count(rows, tenant, kind, device)
  {
    var fp := Fingerprints.SilentFingerprint(tenant, kind, device);
    if IsSilent(s, now) {
      RecordCounts(rows, Report(s, now), tenant, fp);
      if s.tenant == tenant && Silence(s) == fp {
        Fingerprints.SilentFingerprintsDiffer(tenant, s.kind, s.device, kind, device);
      }
    }
  }

  lemma RecordCounts(rows: seq<D.Row>, f: D.Finding, tenant: string, fp: string)
    requires D.Sound(rows)
    ensures D.Sound(D.Applied(rows, D.Record(f)))
    ensures D.OpenCount(D.Applied(rows, D.Record(f)), tenant, fp)
         == if D.Of(f, tenant, fp) then More(D.OpenCount(rows, tenant, fp)) else D.OpenCount(rows, tenant, fp)
  {
    D.AppliedKeepsSound(rows, D.Record(f));
    D.AppliedTally(rows, D.Record(f), tenant, fp);
  }

  predicate HasSilent(sources: seq<Source>, now: int, tenant: string, kind: string, device: string) {
    exists i :: 0 <= i < |sources| && Is(sources[i], tenant, kind, device) && IsSilent(sources[i], now)
  }

  lemma {:induction false} RaisedAllCounts(rows: seq<D.Row>, sources: seq<Source>, now: int, tenant: string,
                                           kind: string, device: string)
    requires D.Sound(rows) && DistinctSources(sources)
    ensures D.Sound(RaisedAll(rows, sources, now))
    ensures Count(RaisedAll(rows, sources, now), tenant, kind, device)
         == if HasSilent(sources, now, tenant, kind, device) then More(Count(rows, tenant, kind, device))
            else Count(rows, tenant, kind, device)
    decreases |sources|
  {
    if sources != [] {
      var k := |sources| - 1;
      var init, last := sources[..k], sources[k];
      RaisedAllCounts(rows, init, now, tenant, kind, device);
      RaisedCounts(RaisedAll(rows, init, now), last, now, tenant, kind, device);
      SilentAtEnd(sources, now, tenant, kind, device);
    }
  }

  lemma SilentAtEnd(sources: seq<Source>, now: int, tenant: string, kind: string, device: string)
    requires DistinctSources(sources) && sources != []
    ensures var init, last := sources[..|sources| - 1], sources[|sources| - 1];
      (HasSilent(sources, now, tenant, kind, device)
       <==> HasSilent(init, now, tenant, kind, device) || (Is(last, tenant, kind, device) && IsSilent(last, now)))
      && !(HasSilent(init, now, tenant, kind, device) && Is(last, tenant, kind, device))
  {
    var k := |sources| - 1;
    var init := sources[..k];
    assert forall i :: 0 <= i < k ==> init[i] == sources[i];
    if i :| 0 <= i < k && Is(init[i], tenant, kind, device) && IsSilent(init[i], now) {
      assert !SameSource(sources[i], sources[k]);
    }
  }

  /** What a step does to the open event of one source. */
  function EffectOn(s: State, step: Step, tenant: string, kind: string, device: string): D.Effect {
    match step
    case Heartbeat(_) => D.Nothing
    case Scan(now) => if HasSilent(s.sources, now, tenant, kind, device) then D.Counts else D.Nothing
    case Other(e) =>
      if D.Closes(s.rows, e, tenant, Fingerprints.SilentFingerprint(tenant, kind, device)) then D.Closed else D.Nothing
  }

  /** What each step of a run does to the open event of one source. */
  function Effects(states: seq<State>, steps: seq<Step>, tenant: string, kind: string, device: string): seq<D.Effect>
    requires |states| == |steps| + 1
  {
    seq(|steps|, i requires 0 <= i < |steps| => EffectOn(states[i], steps[i], tenant, kind, device))
  }

  lemma StepCounts(s: State, step: Step, tenant: string, kind: string, device: string)
    requires Good(s) && (step.Other? ==> !step.step.Record?)
    ensures Count(After(s, step).rows, tenant, kind, device)
         == D.Affected(Count(s.rows, tenant, kind, device), EffectOn(s, step, tenant, kind, device))
  {
    match step
    case Heartbeat(_) =>
    case Scan(now) => RaisedAllCounts(s.rows, s.sources, now, tenant, kind, device);
    case Other(e) => D.AppliedTally(s.rows, e, tenant, Fingerprints.SilentFingerprint(tenant, kind, device));
  }

  lemma CountsAdvance(states: seq<State>, steps: seq<Step>, n: nat, tenant: string, kind: string, device: string)
    requires IsRun(states, steps) && n < |steps| && OnlyScansRecord(steps)
    ensures Count(states[n + 1].rows, tenant, kind, device)
         == D.Affected(Count(states[n].rows, tenant, kind, device), EffectOn(states[n], steps[n], tenant, kind, device))
  {
    RunsStayGood(states, steps, n);
    assert Moves(states[n], steps[n], states[n + 1]);
    StepCounts(states[n], steps[n], tenant, kind, device);
  }

  /** The open `collector_silent` event of a source counts its silent scans since the event opened, and
      only a resolution closes it. */
  lemma EventCountsSilentScans(states: seq<State>, steps: seq<Step>, n: nat, tenant: string, kind: string,
                               device: string)
    requires IsRun(states, steps) && n <= |steps| && OnlyScansRecord(steps)
    ensures Count(states[n].rows, tenant, kind, device)
         == D.Tally(Count(states[0].rows, tenant, kind, device), Effects(states, steps, tenant, kind, device), n)
  {
    var effects := Effects(states, steps, tenant, kind, device);
    var counts := seq(n + 1, i requires 0 <= i <= n => Count(states[i].rows, tenant, kind, device));
    forall i | 0 <= i < n
      ensures counts[i + 1] == D.Affected(counts[i], effects[i])
    {
      CountsAdvance(states, steps, i, tenant, kind, device);
    }
    D.CountsFollowEffects(counts, effects, n);
  }

  /** The first silence of a source opens a critical event of its own. */
  lemma FirstSilenceOpensRow(rows: seq<D.Row>, s: Source, now: int)
    requires IsSilent(s, now) && Count(rows, s.tenant, s.kind, s.device) == None
    ensures var fp := Fingerprints.FingerprintFor(s.tenant, "collector_silent", "device:" + s.device,
                                                  [("device", s.device), ("source_kind", s.kind)]);
      Raised(rows, s, now)
      == rows + [D.Row(s.tenant, "device:" + s.device, "collector_silent", now, "critical",
                       s.kind + " collector for " + s.device, None, Some(fp), Some(now), Some(now), 1, None, None)]
  {}

  /** Every open event under the fingerprint is critical, and was last seen just now. */
  predicate Alarms(rows: seq<D.Row>, tenant: string, fp: string, now: int) {
    forall k :: 0 <= k < |rows| && D.Open(rows[k], tenant, fp) ==>
      rows[k].severity == "critical" && rows[k].lastSeen == Some(now)
  }

  lemma RaisedAlarms(rows: seq<D.Row>, s: Source, now: int, tenant: string, kind: string, device: string)
    requires D.Sound(rows)
    ensures var fp := Fingerprints.SilentFingerprint(tenant, kind, device);
      (Is(s, tenant, kind, device) && IsSilent(s, now)) || Alarms(rows, tenant, fp, now) ==>
        Alarms(Raised(rows, s, now), tenant, fp, now)
  {
    var fp := Fingerprints.SilentFingerprint(tenant, kind, device);
    if IsSilent(s, now) && (Is(s, tenant, kind, device) || Alarms(rows, tenant, fp, now)) {
      RecordAlarms(rows, Report(s, now), tenant, fp, now);
    }
  }

  lemma RecordAlarms(rows: seq<D.Row>, f: D.Finding, tenant: string, fp: string, now: int)
    requires D.Sound(rows) && f.severity == "critical" && f.now == now
    requires D.Of(f, tenant, fp) || Alarms(rows, tenant, fp, now)
    ensures Alarms(D.Applied(rows, D.Record(f)), tenant, fp, now)
  {
    var after := D.Applied(rows, D.Record(f));
    forall k | 0 <= k < |after| && D.Open(after[k], tenant, fp)
      ensures after[k].severity == "critical" && after[k].lastSeen == Some(now)
    {
      if k < |rows| {
        D.SeverityOrder(rows[k].severity);
        if D.Of(f, tenant, fp) { D.TargetIsOpenRow(rows, tenant, fp, k); }
      }
    }
  }

  lemma {:induction false} RaisedAllAlarms(rows: seq<D.Row>, sources: seq<Source>, now: int, tenant: string,
                                           kind: string, device: string)
    requires D.Sound(rows) && HasSilent(sources, now, tenant, kind, device) && DistinctSources(sources)
    ensures Alarms(RaisedAll(rows, sources, now), tenant, Fingerprints.SilentFingerprint(tenant, kind, device), now)
    decreases |sources|
  {
    var k := |sources| - 1;
    SilentAtEnd(sources, now, tenant, kind, device);
    RaisedAllSound(rows, sources[..k], now);
    if HasSilent(sources[..k], now, tenant, kind, device) {
      RaisedAllAlarms(rows, sources[..k], now, tenant, kind, device);
    }
    RaisedAlarms(RaisedAll(rows, sources[..k], now), sources[k], now, tenant, kind, device);
  }

  /** After a scan each silent source has an open event, critical and last seen just now, and no other open row shares
      its fingerprint. */
  lemma SilentHasOneOpenEvent(states: seq<State>, steps: seq<Step>, n: nat, i: nat)
    requires IsRun(states, steps) && n < |steps| && steps[n].Scan? && OnlyScansRecord(steps)
    requires i < |states[n + 1].sources| && states[n + 1].sources[i].status == Silent
    ensures var s, events := states[n + 1].sources[i], states[n + 1].rows;
      exists k :: 0 <= k < |events| && D.Open(events[k], s.tenant, Silence(s))
                  && events[k].severity == "critical" && events[k].lastSeen == Some(steps[n].now)
                  && forall j :: 0 <= j < |events| && D.Open(events[j], s.tenant, Silence(s)) ==> j == k
  {
    var before, after := states[n], states[n + 1];
    var s := after.sources[i];
    RunsStayGood(states, steps, n);
    assert Is(before.sources[i], s.tenant, s.kind, s.device) && IsSilent(before.sources[i], steps[n].now);
    RaisedAllCounts(before.rows, before.sources, steps[n].now, s.tenant, s.kind, s.device);
    RaisedAllAlarms(before.rows, before.sources, steps[n].now, s.tenant, s.kind, s.device);
    OneOpen(after.rows, s.tenant, Silence(s));
  }

  /** When other statements slip in between the upserts of a scan: after the upsert for a silent source, at the end of
      the scan or at any time until the source is next recorded, its event is open exactly if it has not been
      resolved since. */
  lemma InterleavedScanIff(tables: seq<seq<D.Row>>, steps: seq<D.Step>, m: nat, n: nat, s: Source, now: int)
    requires D.IsRun(tables, steps) && m < n <= |steps| && steps[m] == D.Record(Report(s, now))
    requires forall i :: m < i < n && steps[i].Record? ==> !D.Of(steps[i].f, s.tenant, Silence(s))
    ensures Count(tables[n], s.tenant, s.kind, s.device).Some?
       <==> forall i :: m < i < n ==> !D.Closes(tables[i], steps[i], s.tenant, Silence(s))
  {
    D.OpenUntilResolvedIff(tables, steps, m, n, s.tenant, Silence(s));
  }

  lemma OneOpen(rows: seq<D.Row>, tenant: string, fp: string)
    requires D.Sound(rows) && D.OpenCount(rows, tenant, fp).Some?
    ensures exists k :: 0 <= k < |rows| && D.Open(rows[k], tenant, fp)
                        && forall j :: 0 <= j < |rows| && D.Open(rows[j], tenant, fp) ==> j == k
  {
    var k := D.Target(rows, tenant, fp);
    forall j | 0 <= j < |rows| && D.Open(rows[j], tenant, fp)
      ensures j == k
    {
      D.TargetIsOpenRow(rows, tenant, fp, j);
    }
  }
}
