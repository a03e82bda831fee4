/** `audit_tool` around `rate_limit`: middleware/audit.py. Calls overlap: a call is one step up to the
    await of the tool body, and another when the body ends. */
module Audit {
  import opened Common
  import R = RateLimit

  /** What the wrapper reads of the quota service's answer; without an "allowed" entry, or without the
      service, the call is allowed. */
  datatype Decision = Decision(allowed: Option<bool>, reason: Option<string>)

  predicate Allows(d: Decision) { d.allowed != Some(false) }

  /** How a tool body ends. `error` tells of an "error" entry in the result, `size` is the length of its
      JSON if it has one, `band` its confidence band; `Cancelled` is any BaseException that is no Exception. */
  datatype Outcome = Returns(error: bool, size: Option<nat>, band: Option<string>) | Raises | Cancelled

  datatype End = LimiterRefused | LimiterCrashed | BodyEnded(o: Outcome)

  datatype Call = OverQuota | Running | Ended(end: End)

  datatype Record = Record(id: nat, status: string, bytes: nat, band: Option<string>)

  /** The record of a call that ended so, if any: a cancelled body leaves `result` unbound, so that the
      finally block fails before it schedules one. */
  function Recorded(id: nat, end: End): seq<Record> {
    match end
    case LimiterRefused => [Record(id, "error", 0, None)]
    case LimiterCrashed => [Record(id, "error", 0, None)]
    case BodyEnded(Returns(error, size, band)) =>
      if error then [Record(id, "error", 0, None)]
      else [Record(id, "ok", if size.Some? then size.value else 0, band)]
    case BodyEnded(Raises) => [Record(id, "error", 0, None)]
    case BodyEnded(Cancelled) => []
  }

  /** A call's id is its position in `calls`; `records` are those scheduled. */
  datatype State = State(limiter: R.State, calls: seq<Call>, records: seq<Record>)

  datatype Step = Arrive(d: Decision, now: real) | Finish(id: nat, o: Outcome)

  function Entry(s: State, d: Decision, now: real, maxCalls: int, window: int): Call {
    if !Allows(d) then OverQuota
    else
      match R.Answered(s.limiter.history, now, maxCalls, window)
      case Admitted => Running
      case Refused(_) => Ended(LimiterRefused)
      case Crashed => Ended(LimiterCrashed)
  }

  function Next(s: State, step: Step, maxCalls: int, window: int): State {
    match step
    case Arrive(d, now) =>
      var call := Entry(s, d, now, maxCalls, window);
      State(if Allows(d) then R.Next(s.limiter, now, maxCalls, window) else s.limiter, s.calls + [call],
            s.records + if call.Ended? then Recorded(|s.calls|, call.end) else [])
    case Finish(id, o) =>
      if id < |s.calls| && s.calls[id] == Running
      then s.(calls := s.calls[id := Ended(BodyEnded(o))], records := s.records + Recorded(id, BodyEnded(o)))
      else s
  }

  class AuditedTool {
    const limiter: R.Limiter
    var calls: seq<Call>
    var records: seq<Record>
    ghost var log: seq<real>

    ghost function Now(): State
      reads this, limiter
    {
      State(R.State(limiter.history, log), calls, records)
    }

    constructor (limiter: R.Limiter)
      requires limiter.history == []
      ensures this.limiter == limiter && Now() == START
    {
      this.limiter := limiter;
      calls, records, log := [], [], [];
    }

    /** The wrapper from the quota service's answer on. `running` says that the tool body is now awaited. */
    method Arrive(d: Decision, now: real) returns (running: bool)
      modifies this, limiter
      ensures Now() == Next(old(Now()), Step.Arrive(d, now), limiter.maxCalls, limiter.window)
      ensures running <==> calls[|old(calls)|] == Running
    {
      if !Allows(d) {
        calls := calls + [OverQuota];
        return false;
      }
      var answer := limiter.Admit(now);
      match answer {
        case Admitted =>
          log := log + [now];
          calls := calls + [Running];
        case Refused(_) =>
          Settle(LimiterRefused, |calls|);
          calls := calls + [Ended(LimiterRefused)];
        case Crashed =>
          Settle(LimiterCrashed, |calls|);
          calls := calls + [Ended(LimiterCrashed)];
      }
      running := answer == R.Admitted;
    }

    /** The tool body of a call ends. */
    method Finish(id: nat, o: Outcome)
      requires id < |calls| && calls[id] == Running
      modifies this
      ensures Now() == Next(old(Now()), Step.Finish(id, o), limiter.maxCalls, limiter.window)
    {
      Settle(BodyEnded(o), id);
      calls := calls[id := Ended(BodyEnded(o))];
    }

    /** The finally block. */
    method Settle(end: End, id: nat)
      modifies this`records
      ensures records == old(records) + Recorded(id, end)
    {
      var status := "ok";
      if !end.BodyEnded? || end.o.Raises? || (end.o.Returns? && end.o.error) {
        status := "error";
      }
      var bytes, band := 0, None;
      if status == "ok" {
        if end.o.Cancelled? {
          return;
        }
        bytes := if end.o.size.Some? then end.o.size.value else 0;
        band := end.o.band;
      }
      records := records + [Record(id, status, bytes, band)];
    }
  }

  // ---------------------------------------------------------------- runs

  const START := State(R.State([], []), [], [])

  ghost predicate Moves(s: State, step: Step, t: State, maxCalls: int, window: int) {
    t == Next(s, step, maxCalls, window)
  }

  /** `states` are those before, between and after the steps. */
  ghost predicate IsRun(states: seq<State>, steps: seq<Step>, maxCalls: int, window: int) {
    |states| == |steps| + 1 && states[0] == START
    && forall i :: 0 <= i < |steps| ==> Moves(states[i], steps[i], states[i + 1], maxCalls, window)
  }

  /** The records of one call. */
  function RecordsOf(records: seq<Record>, id: nat): seq<Record> {
    if records == [] then []
    else
      var r := records[|records| - 1];
      RecordsOf(records[..|records| - 1], id) + if r.id == id then [r] else []
  }

  lemma RecordsOfMore(records: seq<Record>, more: seq<Record>, id: nat)
    requires |more| <= 1
    ensures RecordsOf(records + more, id)
         == RecordsOf(records, id) + if more != [] && more[0].id == id then more else []
  {
    if more == [] {
      assert records + more == records;
    } else {
      assert (records + more)[..|records|] == records;
    }
  }

  /** The records a call of this fate should have. */
  function Due(calls: seq<Call>, id: nat): seq<Record> {
    if id < |calls| && calls[id].Ended? then Recorded(id, calls[id].end) else []
  }

  lemma RecordedIsOwn(id: nat, end: End)
    ensures |Recorded(id, end)| <= 1 && (Recorded(id, end) != [] ==> Recorded(id, end)[0].id == id)
  {}

  lemma SettledDue(records: seq<Record>, calls: seq<Call>, after: seq<Call>, k: nat, end: End, id: nat)
    requires RecordsOf(records, id) == Due(calls, id) && (id == k ==> Due(calls, id) == [])
    requires k < |after| && after[k] == Ended(end) && (id != k ==> Due(after, id) == Due(calls, id))
    ensures RecordsOf(records + Recorded(k, end), id) == Due(after, id)
  {
    RecordedIsOwn(k, end);
    RecordsOfMore(records, Recorded(k, end), id);
    assert Due(after, k) == Recorded(k, end);
  }

  lemma NextKeepsRecords(s: State, step: Step, id: nat, maxCalls: int, window: int)
    requires RecordsOf(s.records, id) == Due(s.calls, id)
    ensures var t := Next(s, step, maxCalls, window); RecordsOf(t.records, id) == Due(t.calls, id)
  {
    match step
    case Arrive(d, now) =>
      var call := Entry(s, d, now, maxCalls, window);
      if call.Ended? {
        SettledDue(s.records, s.calls, s.calls + [call], |s.calls|, call.end, id);
      } else {
        assert s.records + [] == s.records;
      }
    case Finish(k, o) =>
      if k < |s.calls| && s.calls[k] == Running {
        SettledDue(s.records, s.calls, s.calls[k := Ended(BodyEnded(o))], k, BodyEnded(o), id);
      }
  }

  /** At every moment of every run, each call has exactly the records due for the way it ended: none while
      it runs or when it was over quota, one when the limiter refused it or its body returned or raised, and
      none when its body was cancelled. */
  lemma {:induction false} EveryCallItsRecord(states: seq<State>, steps: seq<Step>, n: nat, id: nat, maxCalls: int,
                                              window: int)
    requires IsRun(states, steps, maxCalls, window) && n <= |steps|
    ensures RecordsOf(states[n].records, id) == Due(states[n].calls, id)
  {
    if n > 0 {
      EveryCallItsRecord(states, steps, n - 1, id, maxCalls, window);
      assert Moves(states[n - 1], steps[n - 1], states[n], maxCalls, window);
      NextKeepsRecords(states[n - 1], steps[n - 1], id, maxCalls, window);
    }
  }

  /** Of the calls that have ended, exactly those that passed the quota and were not cancelled have one
      record; the others have none. */
  lemma OneRecordIff(states: seq<State>, steps: seq<Step>, n: nat, id: nat, maxCalls: int, window: int)
    requires IsRun(states, steps, maxCalls, window) && n <= |steps| && id < |states[n].calls|
      && states[n].calls[id] != Running
    ensures |RecordsOf(states[n].records, id)| <= 1
    ensures |RecordsOf(states[n].records, id)| == 1
       <==> states[n].calls[id] != OverQuota && states[n].calls[id] != Ended(BodyEnded(Cancelled))
    ensures forall r :: r in RecordsOf(states[n].records, id) ==> r.id == id && Reads(r, states[n].calls[id])
  {
    EveryCallItsRecord(states, steps, n, id, maxCalls, window);
  }

  /** The record says "ok" of a body that returned without an error, with the size and band of its result, and "error"
      with neither of any other call. */
  predicate Reads(r: Record, c: Call) {
    if c.Ended? && c.end.BodyEnded? && c.end.o.Returns? && !c.end.o.error then
      r.status == "ok" && r.band == c.end.o.band && r.bytes == if c.end.o.size.Some? then c.end.o.size.value else 0
    else r.status == "error" && r.band == None && r.bytes == 0
  }

  /** Once its body has ended, a call stays ended as it did. */
  lemma OutcomeStays(states: seq<State>, steps: seq<Step>, m: nat, n: nat, maxCalls: int, window: int)
    requires IsRun(states, steps, maxCalls, window) && m < n <= |steps| && steps[m].Finish?
    requires steps[m].id < |states[m].calls| && states[m].calls[steps[m].id] == Running
    ensures steps[m].id < |states[n].calls| && states[n].calls[steps[m].id] == Ended(BodyEnded(steps[m].o))
  {
    assert Moves(states[m], steps[m], states[m + 1], maxCalls, window);
    FateStays(states, steps, m + 1, n, steps[m].id, maxCalls, window);
  }

  // ---------------------------------------------------------------- executions, admissions, quota

  predicate Executed(c: Call) { c == Running || (c.Ended? && c.end.BodyEnded?) }

  function Executions(calls: seq<Call>): nat {
    if calls == [] then 0 else Executions(calls[..|calls| - 1]) + if Executed(calls[|calls| - 1]) then 1 else 0
  }

  lemma {:induction false} ExecutionsUpdate(calls: seq<Call>, id: nat, c: Call)
    requires id < |calls| && Executed(calls[id]) && Executed(c)
    ensures Executions(calls[id := c]) == Executions(calls)
    decreases |calls|
  {
    var k := |calls| - 1;
    if id < k {
      ExecutionsUpdate(calls[..k], id, c);
      assert calls[id := c][..k] == calls[..k][id := c];
    } else {
      assert calls[id := c][..k] == calls[..k];
    }
  }

  lemma NextKeepsExecutions(s: State, step: Step, maxCalls: int, window: int)
    requires Executions(s.calls) == |s.limiter.log|
    ensures var t := Next(s, step, maxCalls, window); Executions(t.calls) == |t.limiter.log|
  {
    match step
    case Arrive(d, now) =>
      assert (s.calls + [Entry(s, d, now, maxCalls, window)])[..|s.calls|] == s.calls;
    case Finish(id, o) =>
      if id < |s.calls| && s.calls[id] == Running { ExecutionsUpdate(s.calls, id, Ended(BodyEnded(o))); }
  }

  /** Tool bodies run exactly as often as the limiter admits. */
  lemma {:induction false} ExecutionsAreAdmissions(states: seq<State>, steps: seq<Step>, n: nat, maxCalls: int,
                                                   window: int)
    requires IsRun(states, steps, maxCalls, window) && n <= |steps|
    ensures Executions(states[n].calls) == |states[n].limiter.log|
  {
    if n > 0 {
      ExecutionsAreAdmissions(states, steps, n - 1, maxCalls, window);
      assert Moves(states[n - 1], steps[n - 1], states[n], maxCalls, window);
      NextKeepsExecutions(states[n - 1], steps[n - 1], maxCalls, window);
    }
  }

  lemma {:induction false} FateStays(states: seq<State>, steps: seq<Step>, m: nat, n: nat, id: nat, maxCalls: int,
                                     window: int)
    requires IsRun(states, steps, maxCalls, window) && m <= n <= |steps| && id < |states[m].calls|
    ensures id < |states[n].calls|
    ensures states[m].calls[id] == Running || states[n].calls[id] == states[m].calls[id]
    ensures Executed(states[n].calls[id]) == Executed(states[m].calls[id])
  {
    if m < n {
      FateStays(states, steps, m, n - 1, id, maxCalls, window);
      assert Moves(states[n - 1], steps[n - 1], states[n], maxCalls, window);
    }
  }

  /** For good: a call is turned away as over quota exactly when its decision says so, leaving the limiter and the
      records as they were, and its body runs exactly when the quota allows it and the limiter admits it. */
  lemma FateOfCall(states: seq<State>, steps: seq<Step>, m: nat, n: nat, maxCalls: int, window: int)
    requires IsRun(states, steps, maxCalls, window) && m < n <= |steps| && steps[m].Arrive?
    ensures |states[m].calls| < |states[n].calls|
    ensures var c, d := states[n].calls[|states[m].calls|], steps[m].d;
      var answer := R.Answered(states[m].limiter.history, steps[m].now, maxCalls, window);
      (c == OverQuota <==> d.allowed == Some(false))
      && (Executed(c) <==> d.allowed != Some(false) && answer == R.Admitted)
      && (c == Ended(LimiterRefused) <==> d.allowed != Some(false) && answer.Refused?)
      && (c == Ended(LimiterCrashed) <==> d.allowed != Some(false) && answer == R.Crashed)
    ensures steps[m].d.allowed == Some(false) ==>
      states[m + 1].limiter == states[m].limiter && states[m + 1].records == states[m].records
  {
    assert Moves(states[m], steps[m], states[m + 1], maxCalls, window);
    FateStays(states, steps, m + 1, n, |states[m].calls|, maxCalls, window);
  }

  predicate ClockRises(steps: seq<Step>) {
    forall i, j :: 0 <= i < j < |steps| && steps[i].Arrive? && steps[j].Arrive? ==> steps[i].now <= steps[j].now
  }

  predicate ArrivedBy(steps: seq<Step>, n: nat, t: real)
    requires n <= |steps|
  {
    forall i :: 0 <= i < n && steps[i].Arrive? ==> steps[i].now <= t
  }

  lemma {:induction false} LimiterKeepsInv(states: seq<State>, steps: seq<Step>, n: nat, maxCalls: int, window: int,
                                           t: real)
    requires IsRun(states, steps, maxCalls, window) && n <= |steps| && ClockRises(steps) && ArrivedBy(steps, n, t)
    ensures R.Inv(states[n].limiter, t, maxCalls, window)
  {
    if n > 0 {
      assert Moves(states[n - 1], steps[n - 1], states[n], maxCalls, window);
      var step := steps[n - 1];
      var sooner := if step.Arrive? then step.now else t;
      LimiterKeepsInv(states, steps, n - 1, maxCalls, window, sooner);
      StepKeepsInv(states[n - 1], step, sooner, t, maxCalls, window);
    }
  }

  lemma StepKeepsInv(s: State, step: Step, sooner: real, t: real, maxCalls: int, window: int)
    requires R.Inv(s.limiter, sooner, maxCalls, window) && sooner <= t && (step.Arrive? ==> sooner == step.now)
    ensures R.Inv(Next(s, step, maxCalls, window).limiter, t, maxCalls, window)
  {
    if step.Arrive? && Allows(step.d) {
      R.NextKeepsInv(s.limiter, sooner, step.now, maxCalls, window);
      R.LaterInv(R.Next(s.limiter, step.now, maxCalls, window), sooner, t, maxCalls, window);
    } else {
      R.LaterInv(s.limiter, sooner, t, maxCalls, window);
    }
  }

  /** However calls overlap and end, no half-open window sees more than `maxCalls` tool bodies start. */
  lemma BodiesStartWithinBudget(states: seq<State>, steps: seq<Step>, n: nat, lo: real, t: real, maxCalls: int,
                                window: int)
    requires IsRun(states, steps, maxCalls, window) && n <= |steps| && ClockRises(steps) && ArrivedBy(steps, n, t)
      && maxCalls >= 0
    ensures R.CountIn(states[n].limiter.log, lo, lo + window as real) <= maxCalls
    ensures |states[n].limiter.log| == Executions(states[n].calls)
  {
    LimiterKeepsInv(states, steps, n, maxCalls, window, t);
    R.PacedBound(states[n].limiter.log, lo, maxCalls, window);
    ExecutionsAreAdmissions(states, steps, n, maxCalls, window);
  }
}
