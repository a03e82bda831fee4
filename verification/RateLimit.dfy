/** The per-tool sliding window of middleware/ratelimit.py, and the full log of admissions it stands for. */
module RateLimit {

  /** What is still inside the window at `now`. */
  function Recent(times: seq<real>, now: real, window: int): seq<real> {
    if times == [] then []
    else
      var t := times[|times| - 1];
      Recent(times[..|times| - 1], now, window) + if now - t < window as real then [t] else []
  }

  /** Python's `int(x)`. */
  function Truncated(x: real): int { if x >= 0.0 then x.Floor else -(-x).Floor }

  /** `Crashed` is the IndexError of reading the oldest call of an empty history. */
  datatype Answer = Admitted | Refused(retryAfter: int) | Crashed

  function Answered(history: seq<real>, now: real, maxCalls: int, window: int): Answer {
    var recent := Recent(history, now, window);
    if |recent| < maxCalls then Admitted
    else if recent == [] then Crashed
    else Refused(Truncated(window as real - (now - recent[0])))
  }

  class Limiter {
    const maxCalls: int
    const window: int
    var history: seq<real>

    constructor (maxCalls: int, window: int)
      ensures this.maxCalls == maxCalls && this.window == window && history == []
    {
      this.maxCalls := maxCalls;
      this.window := window;
      history := [];
    }

    /** The wrapper up to the call of the tool; nothing is awaited in between. */
    method Admit(now: real) returns (answer: Answer)
      modifies this
      ensures answer == Answered(old(history), now, maxCalls, window)
      ensures history == Kept(old(history), now, maxCalls, window)
    {
      Prune(now);
      if |history| >= maxCalls {
        if history == [] {
          return Crashed;
        }
        return Refused(Truncated(window as real - (now - history[0])));
      }
      history := history + [now];
      answer := Admitted;
    }

    /** Drops the calls that have left the window, in place. */
    method Prune(now: real)
      modifies this
      ensures history == Recent(old(history), now, window)
    {
      var kept := [];
      for i := 0 to |history|
        invariant history == old(history) && kept == Recent(history[..i], now, window)
      {
        assert history[..i + 1][..i] == history[..i];
        if now - history[i] < window as real {
          kept := kept + [history[i]];
        }
      }
      assert history[..|history|] == history;
      history := kept;
    }
  }

  /** The history the wrapper leaves behind. */
  function Kept(history: seq<real>, now: real, maxCalls: int, window: int): seq<real> {
    Recent(history, now, window) + if Answered(history, now, maxCalls, window) == Admitted then [now] else []
  }

  // ---------------------------------------------------------------- the unpruned log

  /** The history in memory, and every admission ever made. */
  datatype State = State(history: seq<real>, log: seq<real>)

  function Next(s: State, now: real, maxCalls: int, window: int): State {
    State(Kept(s.history, now, maxCalls, window),
          s.log + if Answered(s.history, now, maxCalls, window) == Admitted then [now] else [])
  }

  /** From instant `t` on, the history shows what the log shows. */
  ghost predicate Agrees(s: State, t: real, window: int) {
    forall u :: u >= t ==> Recent(s.history, u, window) == Recent(s.log, u, window)
  }

  predicate Sorted(times: seq<real>) { forall i, j :: 0 <= i < j < |times| ==> times[i] <= times[j] }

  predicate NoneAfter(times: seq<real>, t: real) { forall i :: 0 <= i < |times| ==> times[i] <= t }

  /** Every admission found fewer than `maxCalls` earlier ones inside its window. */
  predicate Paced(log: seq<real>, maxCalls: int, window: int) {
    forall k :: 0 <= k < |log| ==> |Recent(log[..k], log[k], window)| < maxCalls
  }

  /** What holds of the wrapper's state at instant `t`. */
  ghost predicate Inv(s: State, t: real, maxCalls: int, window: int) {
    Agrees(s, t, window) && Sorted(s.log) && NoneAfter(s.log, t) && Paced(s.log, maxCalls, window)
  }

  lemma RecentSnoc(times: seq<real>, t: real, now: real, window: int)
    ensures Recent(times + [t], now, window)
      == Recent(times, now, window) + if now - t < window as real then [t] else []
  {
    assert (times + [t])[..|times|] == times;
  }

  lemma {:induction false} PruneTwice(times: seq<real>, t: real, u: real, window: int)
    requires t <= u
    ensures Recent(Recent(times, t, window), u, window) == Recent(times, u, window)
    decreases |times|
  {
    if times != [] {
      var init, x := times[..|times| - 1], times[|times| - 1];
      PruneTwice(init, t, u, window);
      if t - x < window as real {
        RecentSnoc(Recent(init, t, window), x, u, window);
      } else {
        assert Recent(times, t, window) == Recent(init, t, window);
      }
    }
  }

  lemma KeptAgrees(s: State, now: real, u: real, maxCalls: int, window: int)
    requires Recent(s.history, u, window) == Recent(s.log, u, window) && now <= u
    ensures Recent(Next(s, now, maxCalls, window).history, u, window)
      == Recent(Next(s, now, maxCalls, window).log, u, window)
  {
    PruneTwice(s.history, now, u, window);
    if Answered(s.history, now, maxCalls, window) == Admitted {
      RecentSnoc(Recent(s.history, now, window), now, u, window);
      RecentSnoc(s.log, now, u, window);
    } else {
      assert Next(s, now, maxCalls, window).log == s.log;
      assert Next(s, now, maxCalls, window).history == Recent(s.history, now, window);
    }
  }

  lemma PacedNext(log: seq<real>, now: real, maxCalls: int, window: int)
    requires Paced(log, maxCalls, window) && |Recent(log, now, window)| < maxCalls
    ensures Paced(log + [now], maxCalls, window)
  {
    var after := log + [now];
    forall k | 0 <= k < |after|
      ensures |Recent(after[..k], after[k], window)| < maxCalls
    {
      if k < |log| { assert after[..k] == log[..k]; } else { assert after[..k] == log; }
    }
  }

  lemma NextKeepsInv(s: State, t: real, now: real, maxCalls: int, window: int)
    requires Inv(s, t, maxCalls, window) && t <= now
    ensures Inv(Next(s, now, maxCalls, window), now, maxCalls, window)
  {
    var after := Next(s, now, maxCalls, window);
    forall u | u >= now
      ensures Recent(after.history, u, window) == Recent(after.log, u, window)
    {
      KeptAgrees(s, now, u, maxCalls, window);
    }
    if Answered(s.history, now, maxCalls, window) == Admitted {
      PacedNext(s.log, now, maxCalls, window);
    } else {
      assert after.log == s.log;
    }
  }

  // ---------------------------------------------------------------- runs

  function At(nows: seq<real>, n: nat, maxCalls: int, window: int): State
    requires n <= |nows|
  {
    if n == 0 then State([], []) else Next(At(nows, n - 1, maxCalls, window), nows[n - 1], maxCalls, window)
  }

  lemma {:induction false} RunKeepsInv(nows: seq<real>, n: nat, maxCalls: int, window: int, t: real)
    requires n <= |nows| && Sorted(nows) && NoneAfter(nows[..n], t)
    ensures Inv(At(nows, n, maxCalls, window), t, maxCalls, window)
  {
    if n > 0 {
      var now := nows[n - 1];
      assert now == nows[..n][n - 1];
      RunKeepsInv(nows, n - 1, maxCalls, window, now);
      NextKeepsInv(At(nows, n - 1, maxCalls, window), now, now, maxCalls, window);
      LaterInv(At(nows, n, maxCalls, window), now, t, maxCalls, window);
    }
  }

  lemma LaterInv(s: State, t: real, u: real, maxCalls: int, window: int)
    requires Inv(s, t, maxCalls, window) && t <= u
    ensures Inv(s, u, maxCalls, window)
  {}

  /** The pruned history gives the answer that the full log of admissions would give. */
  lemma PrunedAnswersAsLog(nows: seq<real>, n: nat, maxCalls: int, window: int)
    requires n < |nows| && Sorted(nows)
    ensures var s := At(nows, n, maxCalls, window);
      Answered(s.history, nows[n], maxCalls, window) == Answered(s.log, nows[n], maxCalls, window)
  {
    RunKeepsInv(nows, n, maxCalls, window, nows[n]);
  }

  // ---------------------------------------------------------------- never more than the budget

  /** How many of `times` lie in `lo <= t < hi`. */
  function CountIn(times: seq<real>, lo: real, hi: real): nat {
    if times == [] then 0
    else CountIn(times[..|times| - 1], lo, hi) + if lo <= times[|times| - 1] < hi then 1 else 0
  }

  lemma {:induction false} CountInRecent(times: seq<real>, now: real, lo: real, window: int)
    requires lo <= now < lo + window as real
    ensures CountIn(times, lo, lo + window as real) <= |Recent(times, now, window)|
    decreases |times|
  {
    if times != [] { CountInRecent(times[..|times| - 1], now, lo, window); }
  }

  lemma PacedPrefix(log: seq<real>, k: nat, maxCalls: int, window: int)
    requires Paced(log, maxCalls, window) && k <= |log|
    ensures Paced(log[..k], maxCalls, window)
  {
    assert forall i :: 0 <= i < k ==> log[..k][..i] == log[..i];
  }

  lemma {:induction false} PacedBound(log: seq<real>, lo: real, maxCalls: int, window: int)
    requires Paced(log, maxCalls, window) && maxCalls >= 0
    ensures CountIn(log, lo, lo + window as real) <= maxCalls
    decreases |log|
  {
    if log != [] {
      var k := |log| - 1;
      PacedPrefix(log, k, maxCalls, window);
      PacedBound(log[..k], lo, maxCalls, window);
      if lo <= log[k] < lo + window as real { CountInRecent(log[..k], log[k], lo, window); }
    }
  }

  /** Every half-open interval as long as the window holds at most `maxCalls` admissions. */
  lemma WindowBound(nows: seq<real>, n: nat, lo: real, maxCalls: int, window: int)
    requires n <= |nows| && Sorted(nows) && maxCalls >= 0
    ensures CountIn(At(nows, n, maxCalls, window).log, lo, lo + window as real) <= maxCalls
  {
    if n > 0 {
      assert NoneAfter(nows[..n], nows[n - 1]);
      RunKeepsInv(nows, n, maxCalls, window, nows[n - 1]);
    }
    PacedBound(At(nows, n, maxCalls, window).log, lo, maxCalls, window);
  }

  /** How many of `times` are after `bound`. */
  function CountAfter(times: seq<real>, bound: real): nat {
    if times == [] then 0
    else CountAfter(times[..|times| - 1], bound) + if times[|times| - 1] > bound then 1 else 0
  }

  lemma {:induction false} RecentCounts(times: seq<real>, now: real, window: int)
    ensures |Recent(times, now, window)| == CountAfter(times, now - window as real)
    decreases |times|
  {
    if times != [] { RecentCounts(times[..|times| - 1], now, window); }
  }

  /** The reference: of all admissions there ever were, those less than the window back are counted. */
  function Reference(nows: seq<real>, n: nat, maxCalls: int, window: int): seq<real>
    requires n <= |nows|
  {
    if n == 0 then [] else Referred(Reference(nows, n - 1, maxCalls, window), nows[n - 1], maxCalls, window)
  }

  function Referred(log: seq<real>, now: real, maxCalls: int, window: int): seq<real> {
    if CountAfter(log, now - window as real) < maxCalls then log + [now] else log
  }

  lemma NextRefers(s: State, now: real, maxCalls: int, window: int)
    requires Answered(s.history, now, maxCalls, window) == Admitted
        <==> CountAfter(s.log, now - window as real) < maxCalls
    ensures Next(s, now, maxCalls, window).log == Referred(s.log, now, maxCalls, window)
  {}

  lemma AdmittedIffRoom(nows: seq<real>, n: nat, maxCalls: int, window: int)
    requires n < |nows| && Sorted(nows)
    ensures Answered(At(nows, n, maxCalls, window).history, nows[n], maxCalls, window) == Admitted
       <==> CountAfter(At(nows, n, maxCalls, window).log, nows[n] - window as real) < maxCalls
  {
    PrunedAnswersAsLog(nows, n, maxCalls, window);
    RecentCounts(At(nows, n, maxCalls, window).log, nows[n], window);
  }

  lemma RunRefers(nows: seq<real>, n: nat, maxCalls: int, window: int)
    requires 0 < n <= |nows| && Sorted(nows)
    ensures At(nows, n, maxCalls, window).log
         == Referred(At(nows, n - 1, maxCalls, window).log, nows[n - 1], maxCalls, window)
  {
    AdmittedIffRoom(nows, n - 1, maxCalls, window);
    NextRefers(At(nows, n - 1, maxCalls, window), nows[n - 1], maxCalls, window);
  }

  lemma NextReference(nows: seq<real>, n: nat, maxCalls: int, window: int, before: seq<real>, after: seq<real>)
    requires 0 < n <= |nows| && before == Reference(nows, n - 1, maxCalls, window)
    requires after == Referred(before, nows[n - 1], maxCalls, window)
    ensures after == Reference(nows, n, maxCalls, window)
  {}

  /** The limiter admits the calls that the reference admits, and no other. */
  lemma {:induction false} RefinesReference(nows: seq<real>, n: nat, maxCalls: int, window: int)
    requires n <= |nows| && Sorted(nows)
    ensures At(nows, n, maxCalls, window).log == Reference(nows, n, maxCalls, window)
  {
    if n > 0 {
      RefinesReference(nows, n - 1, maxCalls, window);
      RunRefers(nows, n, maxCalls, window);
      var before, after := At(nows, n - 1, maxCalls, window).log, At(nows, n, maxCalls, window).log;
      NextReference(nows, n, maxCalls, window, before, after);
    }
  }

  // ---------------------------------------------------------------- when to come back

  lemma {:induction false} RecentBounded(log: seq<real>, now: real, maxCalls: int, window: int)
    requires Paced(log, maxCalls, window) && Sorted(log) && maxCalls >= 0 && NoneAfter(log, now)
    ensures |Recent(log, now, window)| <= maxCalls
    decreases |log|
  {
    if log != [] {
      var k := |log| - 1;
      if now - log[k] >= window as real {
        PacedPrefix(log, k, maxCalls, window);
        RecentBounded(log[..k], now, maxCalls, window);
      } else {
        RecentShrinks(log[..k], log[k], now, window);
      }
    }
  }

  lemma {:induction false} RecentShrinks(times: seq<real>, t: real, u: real, window: int)
    requires t <= u
    ensures |Recent(times, u, window)| <= |Recent(times, t, window)|
    decreases |times|
  {
    if times != [] { RecentShrinks(times[..|times| - 1], t, u, window); }
  }

  /** In a sorted log the window shows a tail: nothing older than its first entry. */
  lemma {:induction false} RecentAfter(times: seq<real>, t: real, u: real, window: int)
    requires Sorted(times) && t <= u && Recent(times, t, window) != []
    ensures u - Recent(times, t, window)[0] < window as real ==> Recent(times, u, window) == Recent(times, t, window)
    ensures u - Recent(times, t, window)[0] >= window as real ==>
      |Recent(times, u, window)| < |Recent(times, t, window)|
    decreases |times|
  {
    var k := |times| - 1;
    var init, x := times[..k], times[k];
    if Recent(init, t, window) == [] {
      RecentShrinks(init, t, u, window);
    } else {
      RecentAfter(init, t, u, window);
      FirstIsOldest(init, t, window);
    }
  }

  lemma {:induction false} FirstIsOldest(times: seq<real>, t: real, window: int)
    requires Sorted(times) && Recent(times, t, window) != []
    ensures exists i :: 0 <= i < |times| && times[i] == Recent(times, t, window)[0]
    decreases |times|
  {
    var k := |times| - 1;
    if Recent(times[..k], t, window) != [] {
      FirstIsOldest(times[..k], t, window);
    } else {
      assert times[k] == Recent(times, t, window)[0];
    }
  }

  /** The instant at which the next slot frees if nothing else is admitted. */
  ghost predicate FreesAt(log: seq<real>, now: real, maxCalls: int, window: int, free: real) {
    now < free && |Recent(log, free, window)| < maxCalls
    && forall u :: now <= u < free ==> |Recent(log, u, window)| >= maxCalls
  }

  /** A refused caller is told to come back at most one second before a slot frees, and never after. */
  lemma RetryWithinASecond(nows: seq<real>, n: nat, maxCalls: int, window: int)
    requires n < |nows| && Sorted(nows) && maxCalls >= 1
    requires Answered(At(nows, n, maxCalls, window).history, nows[n], maxCalls, window).Refused?
    ensures var s := At(nows, n, maxCalls, window);
      var wait := Answered(s.history, nows[n], maxCalls, window).retryAfter as real;
      exists free :: FreesAt(s.log, nows[n], maxCalls, window, free) && free - 1.0 < nows[n] + wait <= free
  {
    var s, now := At(nows, n, maxCalls, window), nows[n];
    RunKeepsInv(nows, n, maxCalls, window, now);
    RecentBounded(s.log, now, maxCalls, window);
    var recent := Recent(s.log, now, window);
    var free := recent[0] + window as real;
    RecentInside(s.log, now, window);
    forall u | now <= u < free
      ensures |Recent(s.log, u, window)| >= maxCalls
    {
      RecentAfter(s.log, now, u, window);
    }
    RecentAfter(s.log, now, free, window);
    assert FreesAt(s.log, now, maxCalls, window, free);
  }

  lemma {:induction false} RecentInside(times: seq<real>, now: real, window: int)
    requires Recent(times, now, window) != []
    ensures now - Recent(times, now, window)[0] < window as real
    decreases |times|
  {
    if Recent(times[..|times| - 1], now, window) != [] { RecentInside(times[..|times| - 1], now, window); }
  }

  /** The wrapper crashes exactly when it was configured to admit nothing. */
  lemma CrashIff(nows: seq<real>, n: nat, maxCalls: int, window: int)
    requires n < |nows|
    ensures Answered(At(nows, n, maxCalls, window).history, nows[n], maxCalls, window) == Crashed <==> maxCalls <= 0
  {
    if maxCalls <= 0 { NothingAdmitted(nows, n, maxCalls, window); }
  }

  lemma {:induction false} NothingAdmitted(nows: seq<real>, n: nat, maxCalls: int, window: int)
    requires n <= |nows| && maxCalls <= 0
    ensures At(nows, n, maxCalls, window) == State([], [])
  {
    if n > 0 { NothingAdmitted(nows, n - 1, maxCalls, window); }
  }
}
