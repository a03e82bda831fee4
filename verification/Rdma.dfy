/** RDMA health of services/rdma.py against the RDMA detectors of services/anomalies.py, on the same
    per-queue totals. */
module Rdma {

  /** The counter totals of one queue over the window. */
  datatype Queue = Queue(
    device: string, interface_: string, id: int, pfcRx: nat, pfcTx: nat, ecn: nat, drops: nat, peakDepth: nat)

  datatype Severity = Low | Medium | High | Critical

  function Rank(s: Severity): nat { match s case Low => 1 case Medium => 2 case High => 3 case Critical => 4 }

  function Pfc(q: Queue): nat { q.pfcRx + q.pfcTx }

  // ---------------------------------------------------------------- the health assessment

  predicate Signals(q: Queue) { q.pfcRx != 0 || q.pfcTx != 0 || q.ecn != 0 || q.drops != 0 }

  function Signalling(rows: seq<Queue>): seq<Queue> {
    if rows == [] then []
    else Signalling(rows[..|rows| - 1]) + if Signals(rows[|rows| - 1]) then [rows[|rows| - 1]] else []
  }

  method QueuesWithSignals(rows: seq<Queue>) returns (queues: seq<Queue>)
    ensures queues == Signalling(rows)
  {
    queues := [];
    for i := 0 to |rows|
      invariant queues == Signalling(rows[..i])
    {
      assert rows[..i + 1][..i] == rows[..i];
      var q := rows[i];
      if q.pfcRx == 0 && q.pfcTx == 0 && q.ecn == 0 && q.drops == 0 {
        continue;
      }
      queues := queues + [q];
    }
    assert rows[..|rows|] == rows;
  }

  const SUSTAINED_PFC := 1000

  predicate LosslessDrop(q: Queue) { q.drops > 0 && (q.pfcRx != 0 || q.pfcTx != 0) }

  predicate SustainedPfc(q: Queue) { Pfc(q) > SUSTAINED_PFC }

  predicate EcnSignalling(q: Queue) { q.ecn > 0 }

  predicate Drops(q: Queue) { q.drops > 0 }

  function Count(queues: seq<Queue>, p: Queue -> bool): nat {
    if queues == [] then 0 else Count(queues[..|queues| - 1], p) + if p(queues[|queues| - 1]) then 1 else 0
  }

  datatype Driver =
    | LosslessDropOn(queues: nat)
    | LossyDropsOn(queues: nat)
    | SustainedPfcOn(queues: nat)
    | EcnActiveOn(queues: nat)
    | BelowThresholds
    | HighUdpShare(share: real)
    | NoStress

  /** `_assess`. */
  method Assess(share: real, queues: seq<Queue>) returns (severity: Severity, drivers: seq<Driver>)
    ensures severity == SeverityOf(queues)
    ensures drivers != [] && forall d :: d in drivers ==> Justified(d, share, queues)
    ensures severity == Critical <==> exists n :: LosslessDropOn(n) in drivers
    ensures severity == High <==> exists n :: SustainedPfcOn(n) in drivers
    ensures severity == Medium <==> exists n :: EcnActiveOn(n) in drivers
    ensures AnyOf(queues, Drops) && severity != Critical <==> exists n :: LossyDropsOn(n) in drivers
  {
    drivers := [];
    var lossless, lossy := Count(queues, LosslessDrop), Count(queues, Drops);
    var sustained, ecn := Count(queues, SustainedPfc), Count(queues, EcnSignalling);
    CountIff(queues, LosslessDrop);
    CountIff(queues, Drops);
    CountIff(queues, SustainedPfc);
    CountIff(queues, EcnSignalling);
    if lossless > 0 {
      assert LosslessDropOn(lossless) in [LosslessDropOn(lossless)];
      return Critical, [LosslessDropOn(lossless)];
    }
    if lossy > 0 {
      drivers := drivers + [LossyDropsOn(lossy)];
      assert drivers[0] == LossyDropsOn(lossy);
    }
    if sustained > 0 {
      ghost var before := drivers;
      drivers := drivers + [SustainedPfcOn(sustained)];
      assert drivers[|before|] == SustainedPfcOn(sustained);
      return High, drivers;
    }
    if ecn > 0 {
      ghost var before := drivers;
      drivers := drivers + [EcnActiveOn(ecn)];
      assert drivers[|before|] == EcnActiveOn(ecn);
      return Medium, drivers;
    }
    if queues != [] {
      drivers := drivers + [BelowThresholds];
    } else if share > 0.5 {
      drivers := drivers + [HighUdpShare(share)];
    } else {
      drivers := drivers + [NoStress];
    }
    severity := Low;
  }

  /** What a driver claims is so. */
  predicate Justified(d: Driver, share: real, queues: seq<Queue>) {
    match d
    case LosslessDropOn(n) => n == Count(queues, LosslessDrop) > 0
    case LossyDropsOn(n) => n == Count(queues, Drops) > 0 && Count(queues, LosslessDrop) == 0
    case SustainedPfcOn(n) => n == Count(queues, SustainedPfc) > 0
    case EcnActiveOn(n) => n == Count(queues, EcnSignalling) > 0
    case BelowThresholds => queues != []
    case HighUdpShare(s) => queues == [] && s == share && share > 0.5
    case NoStress => queues == [] && share <= 0.5
  }

  ghost predicate AnyOf(queues: seq<Queue>, p: Queue -> bool) { exists i :: 0 <= i < |queues| && p(queues[i]) }

  lemma {:induction false} CountIff(queues: seq<Queue>, p: Queue -> bool)
    ensures Count(queues, p) > 0 <==> AnyOf(queues, p)
    decreases |queues|
  {
    if queues != [] {
      var k := |queues| - 1;
      CountIff(queues[..k], p);
      if i :| 0 <= i < k && p(queues[..k][i]) { assert p(queues[i]); }
      if i :| 0 <= i < |queues| && p(queues[i]) { assert i < k ==> p(queues[..k][i]); }
    }
  }

  /** The severity as its meaning has it: the worst thing to be seen on any queue. */
  ghost function SeverityOf(queues: seq<Queue>): Severity {
    if AnyOf(queues, LosslessDrop) then Critical
    else if AnyOf(queues, SustainedPfc) then High
    else if AnyOf(queues, EcnSignalling) then Medium
    else Low
  }

  // ---------------------------------------------------------------- the detectors

  const PFC_STORM := 1000
  const ECN_SPIKE := 500

  datatype Kind = LosslessDropEvent | PfcStormEvent | EcnSpikeEvent

  datatype Event = Event(kind: Kind, severity: Severity, queue: Queue)

  function EventsOf(q: Queue): seq<Event> {
    if q.drops > 0 && Pfc(q) > 0 then [Event(LosslessDropEvent, Critical, q)]
    else
      (if Pfc(q) >= PFC_STORM then [Event(PfcStormEvent, High, q)] else [])
      + (if q.ecn >= ECN_SPIKE then [Event(EcnSpikeEvent, Medium, q)] else [])
  }

  function AllEvents(rows: seq<Queue>): seq<Event> {
    if rows == [] then [] else AllEvents(rows[..|rows| - 1]) + EventsOf(rows[|rows| - 1])
  }

  lemma NextEvents(rows: seq<Queue>, i: nat)
    requires i < |rows|
    ensures AllEvents(rows[..i + 1]) == AllEvents(rows[..i]) + EventsOf(rows[i])
  {
    assert rows[..i + 1][..i] == rows[..i];
  }

  method DetectRdmaStress(rows: seq<Queue>) returns (events: seq<Event>)
    ensures events == AllEvents(rows)
  {
    events := [];
    for i := 0 to |rows|
      invariant events == AllEvents(rows[..i])
    {
      NextEvents(rows, i);
      var q := rows[i];
      var pfc := q.pfcRx + q.pfcTx;
      if q.drops > 0 && pfc > 0 {
        events := events + [Event(LosslessDropEvent, Critical, q)];
        continue;
      }
      ghost var before := events;
      if pfc >= PFC_STORM {
        events := events + [Event(PfcStormEvent, High, q)];
      }
      ghost var storm := if pfc >= PFC_STORM then [Event(PfcStormEvent, High, q)] else [];
      assert events == before + storm;
      if q.ecn >= ECN_SPIKE {
        events := events + [Event(EcnSpikeEvent, Medium, q)];
      }
      assert events == before + (storm + if q.ecn >= ECN_SPIKE then [Event(EcnSpikeEvent, Medium, q)] else []);
    }
    assert rows[..|rows|] == rows;
  }

  ghost predicate Emitted(rows: seq<Queue>, e: Event) { exists i :: 0 <= i < |rows| && e in EventsOf(rows[i]) }

  lemma EmittedNext(rows: seq<Queue>, e: Event)
    requires rows != []
    ensures Emitted(rows, e) <==> Emitted(rows[..|rows| - 1], e) || e in EventsOf(rows[|rows| - 1])
  {
    var k := |rows| - 1;
    if i :| 0 <= i < k && e in EventsOf(rows[..k][i]) { assert e in EventsOf(rows[i]); }
    if i :| 0 <= i < |rows| && e in EventsOf(rows[i]) { assert i < k ==> e in EventsOf(rows[..k][i]); }
  }

  lemma {:induction false} EventsAreOfQueues(rows: seq<Queue>, e: Event)
    ensures e in AllEvents(rows) <==> Emitted(rows, e)
    decreases |rows|
  {
    if rows != [] {
      EventsAreOfQueues(rows[..|rows| - 1], e);
      EmittedNext(rows, e);
    }
  }

  /** The worst severity among the events, 0 without any. */
  function Worst(events: seq<Event>): nat {
    if events == [] then 0
    else
      var w, r := Worst(events[..|events| - 1]), Rank(events[|events| - 1].severity);
      if r > w then r else w
  }

  lemma {:induction false} WorstIs(events: seq<Event>)
    ensures forall e :: e in events ==> Rank(e.severity) <= Worst(events)
    ensures events != [] ==> exists e :: e in events && Rank(e.severity) == Worst(events)
    decreases |events|
  {
    if events != [] {
      var k := |events| - 1;
      WorstIs(events[..k]);
      assert events == events[..k] + [events[k]];
      assert events[k] in events;
    }
  }

  // ---------------------------------------------------------------- the two agree

  /** A queue is kept exactly when one of its counters moved. */
  lemma {:induction false} SignallingHolds(rows: seq<Queue>, q: Queue)
    ensures q in Signalling(rows) <==> q in rows && q.pfcRx + q.pfcTx + q.ecn + q.drops > 0
    decreases |rows|
  {
    if rows != [] {
      var k := |rows| - 1;
      SignallingHolds(rows[..k], q);
      assert rows == rows[..k] + [rows[k]];
    }
  }

  lemma SignallingKeeps(rows: seq<Queue>, p: Queue -> bool)
    requires forall q :: p(q) ==> Signals(q)
    ensures AnyOf(Signalling(rows), p) <==> AnyOf(rows, p)
  {
    if i :| 0 <= i < |rows| && p(rows[i]) {
      SignallingHolds(rows, rows[i]);
      var j :| 0 <= j < |Signalling(rows)| && Signalling(rows)[j] == rows[i];
      assert p(Signalling(rows)[j]);
    }
    if i :| 0 <= i < |Signalling(rows)| && p(Signalling(rows)[i]) {
      SignallingHolds(rows, Signalling(rows)[i]);
      var j :| 0 <= j < |rows| && rows[j] == Signalling(rows)[i];
      assert p(rows[j]);
    }
  }

  /** Leaving out the queues without signals never changes the severity. */
  lemma FilterKeepsSeverity(rows: seq<Queue>)
    ensures SeverityOf(Signalling(rows)) == SeverityOf(rows)
  {
    SignallingKeeps(rows, LosslessDrop);
    SignallingKeeps(rows, SustainedPfc);
    SignallingKeeps(rows, EcnSignalling);
  }

  /** The severity of what is kept, told by the counters: drops beside pause frames are critical, more than 1000 pause
      frames high, any marking medium. */
  lemma SeverityByCounters(rows: seq<Queue>)
    ensures var severity := SeverityOf(Signalling(rows));
      (severity == Critical <==> exists q :: q in rows && q.drops > 0 && q.pfcRx + q.pfcTx > 0)
      && (severity in {Critical, High} <==>
            exists q :: q in rows && ((q.drops > 0 && q.pfcRx + q.pfcTx > 0) || q.pfcRx + q.pfcTx > 1000))
      && (severity == Low <==>
            forall q :: q in rows ==>
              q.ecn == 0 && q.pfcRx + q.pfcTx <= 1000 && (q.drops == 0 || q.pfcRx + q.pfcTx == 0))
  {
    FilterKeepsSeverity(rows);
    SomeQueue(rows, LosslessDrop);
    SomeQueue(rows, SustainedPfc);
    SomeQueue(rows, EcnSignalling);
  }

  lemma SomeQueue(rows: seq<Queue>, p: Queue -> bool)
    ensures AnyOf(rows, p) <==> exists q :: q in rows && p(q)
  {
    if i :| 0 <= i < |rows| && p(rows[i]) { assert rows[i] in rows; }
    if q :| q in rows && p(q) {
      var i :| 0 <= i < |rows| && rows[i] == q;
      assert p(rows[i]);
    }
  }

  /** The counts in the drivers count queue by queue. */
  lemma {:induction false} CountAdds(a: seq<Queue>, b: seq<Queue>, p: Queue -> bool)
    ensures Count(a + b, p) == Count(a, p) + Count(b, p)
    ensures |b| == 1 ==> Count(b, p) == if p(b[0]) then 1 else 0
    decreases |b|
  {
    if b == [] {
      assert a + b == a;
    } else {
      var k := |b| - 1;
      CountAdds(a, b[..k], p);
      assert (a + b)[..|a| + k] == a + b[..k];
    }
  }

  /** Which events a queue raises: a lossless drop, or else a storm from 1000 pause frames and a spike from 500
      marks. */
  lemma EventsByCounters(rows: seq<Queue>, q: Queue)
    ensures Event(LosslessDropEvent, Critical, q) in AllEvents(rows)
       <==> q in rows && q.drops > 0 && q.pfcRx + q.pfcTx > 0
    ensures Event(PfcStormEvent, High, q) in AllEvents(rows)
       <==> q in rows && (q.drops == 0 || q.pfcRx + q.pfcTx == 0) && q.pfcRx + q.pfcTx >= 1000
    ensures Event(EcnSpikeEvent, Medium, q) in AllEvents(rows)
       <==> q in rows && (q.drops == 0 || q.pfcRx + q.pfcTx == 0) && q.ecn >= 500
  {
    EventsOfQueue(rows, Event(LosslessDropEvent, Critical, q));
    EventsOfQueue(rows, Event(PfcStormEvent, High, q));
    EventsOfQueue(rows, Event(EcnSpikeEvent, Medium, q));
  }

  lemma EventsOfQueue(rows: seq<Queue>, e: Event)
    ensures e in AllEvents(rows) <==> e.queue in rows && e in EventsOf(e.queue)
  {
    EventsAreOfQueues(rows, e);
    if i :| 0 <= i < |rows| && e in EventsOf(rows[i]) { assert e.queue == rows[i]; }
    if e.queue in rows && e in EventsOf(e.queue) {
      var i :| 0 <= i < |rows| && rows[i] == e.queue;
      assert e in EventsOf(rows[i]);
    }
  }

  lemma LosslessEvent(q: Queue, e: Event)
    requires e in EventsOf(q)
    ensures e.kind == LosslessDropEvent <==> LosslessDrop(q)
  {}

  /** The assessment is critical exactly when the detectors emit a lossless drop. */
  lemma CriticalIffLosslessDrop(rows: seq<Queue>)
    ensures SeverityOf(Signalling(rows)) == Critical
       <==> exists e :: e in AllEvents(rows) && e.kind == LosslessDropEvent
  {
    FilterKeepsSeverity(rows);
    if i :| 0 <= i < |rows| && LosslessDrop(rows[i]) {
      var e := Event(LosslessDropEvent, Critical, rows[i]);
      assert e in EventsOf(rows[i]);
      EventsAreOfQueues(rows, e);
    }
    if e :| e in AllEvents(rows) && e.kind == LosslessDropEvent {
      EventsAreOfQueues(rows, e);
      var i :| 0 <= i < |rows| && e in EventsOf(rows[i]);
      LosslessEvent(rows[i], e);
    }
  }

  function MaxPfc(rows: seq<Queue>): nat {
    if rows == [] then 0
    else if Pfc(rows[|rows| - 1]) > MaxPfc(rows[..|rows| - 1]) then Pfc(rows[|rows| - 1])
    else MaxPfc(rows[..|rows| - 1])
  }

  lemma {:induction false} MaxPfcIs(rows: seq<Queue>)
    ensures forall i :: 0 <= i < |rows| ==> Pfc(rows[i]) <= MaxPfc(rows)
    ensures MaxPfc(rows) > 0 ==> exists i :: 0 <= i < |rows| && Pfc(rows[i]) == MaxPfc(rows)
    decreases |rows|
  {
    if rows != [] {
      var k := |rows| - 1;
      MaxPfcIs(rows[..k]);
      assert forall i :: 0 <= i < k ==> rows[..k][i] == rows[i];
      if i :| 0 <= i < k && Pfc(rows[..k][i]) == MaxPfc(rows[..k]) { assert Pfc(rows[i]) == MaxPfc(rows[..k]); }
    }
  }

  /** The severity of any one event is matched, unless it comes of exactly 1000 pause frames. */
  lemma EventMatched(rows: seq<Queue>, e: Event)
    requires e in AllEvents(rows) && (AnyOf(rows, LosslessDrop) || MaxPfc(rows) != PFC_STORM)
    ensures Rank(e.severity) <= Rank(SeverityOf(rows))
  {
    EventsAreOfQueues(rows, e);
    var i :| 0 <= i < |rows| && e in EventsOf(rows[i]);
    LosslessEvent(rows[i], e);
    MaxPfcIs(rows);
    if MaxPfc(rows) > PFC_STORM {
      var j :| 0 <= j < |rows| && Pfc(rows[j]) == MaxPfc(rows);
      assert SustainedPfc(rows[j]);
    }
    assert e.severity == Medium ==> EcnSignalling(rows[i]);
    assert e.severity == Critical ==> LosslessDrop(rows[i]);
  }

  lemma StormMissed(rows: seq<Queue>)
    requires !AnyOf(rows, LosslessDrop) && MaxPfc(rows) == PFC_STORM
    ensures exists e :: e in AllEvents(rows) && Rank(e.severity) > Rank(SeverityOf(rows))
  {
    MaxPfcIs(rows);
    var i :| 0 <= i < |rows| && Pfc(rows[i]) == MaxPfc(rows);
    var e := Event(PfcStormEvent, High, rows[i]);
    assert !LosslessDrop(rows[i]);
    assert e in EventsOf(rows[i]);
    EventsAreOfQueues(rows, e);
  }

  /** The assessment is at least as severe as the worst event, except when the largest pause total is exactly
      1000 and nothing was lost: the one test is >=, the other >. */
  lemma AssessCoversEventsIff(rows: seq<Queue>)
    ensures Rank(SeverityOf(Signalling(rows))) >= Worst(AllEvents(rows))
       <==> AnyOf(rows, LosslessDrop) || MaxPfc(rows) != PFC_STORM
  {
    FilterKeepsSeverity(rows);
    WorstIs(AllEvents(rows));
    if AnyOf(rows, LosslessDrop) || MaxPfc(rows) != PFC_STORM {
      if AllEvents(rows) != [] {
        var e :| e in AllEvents(rows) && Rank(e.severity) == Worst(AllEvents(rows));
        EventMatched(rows, e);
      }
    } else {
      StormMissed(rows);
    }
  }

  // ---------------------------------------------------------------- more trouble is never less severe

  predicate AtMost(q: Queue, r: Queue) {
    q.pfcRx <= r.pfcRx && q.pfcTx <= r.pfcTx && q.ecn <= r.ecn && q.drops <= r.drops
  }

  /** Every queue of `rows` is in `more` with counters at least as high; `more` may hold others too. */
  ghost predicate Grown(rows: seq<Queue>, more: seq<Queue>) {
    forall i :: 0 <= i < |rows| ==> exists j :: 0 <= j < |more| && AtMost(rows[i], more[j])
  }

  lemma GrownKeeps(rows: seq<Queue>, more: seq<Queue>, p: Queue -> bool)
    requires Grown(rows, more) && AnyOf(rows, p) && forall q, r :: p(q) && AtMost(q, r) ==> p(r)
    ensures AnyOf(more, p)
  {
    var i :| 0 <= i < |rows| && p(rows[i]);
    var j :| 0 <= j < |more| && AtMost(rows[i], more[j]);
    assert p(more[j]);
  }

  /** Adding queues or raising counters never lowers the severity. */
  lemma SeverityIsMonotone(rows: seq<Queue>, more: seq<Queue>)
    requires Grown(rows, more)
    ensures Rank(SeverityOf(Signalling(rows))) <= Rank(SeverityOf(Signalling(more)))
  {
    FilterKeepsSeverity(rows);
    FilterKeepsSeverity(more);
    if AnyOf(rows, LosslessDrop) { GrownKeeps(rows, more, LosslessDrop); }
    if AnyOf(rows, SustainedPfc) { GrownKeeps(rows, more, SustainedPfc); }
    if AnyOf(rows, EcnSignalling) { GrownKeeps(rows, more, EcnSignalling); }
  }
}
