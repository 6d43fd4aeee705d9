/**
  The circuit breaker, with the clock as an explicit, non-decreasing input: a
  call passes the gate when it starts and settles when its effect finishes.
 */
module Breaker {
  import opened Options

  datatype CircuitState = Closed | Open | HalfOpen

  /** The failure counter is an unbounded natural here; the source uses 32 bits. */
  datatype State = State(state: CircuitState, failures: nat, openedAt: Option<nat>)

  datatype Config = Config(threshold: nat, resetAfter: nat)

  /** One sequential call: when it starts, when its effect would finish, and how the effect ends. */
  datatype Call = Call(start: nat, finish: nat, ok: bool)

  datatype Outcome = Rejected | Succeeded | Failed

  const Initial := State(Closed, 0, None)

  // ------------------------------------------------------------------
  // Gate and settlement
  // ------------------------------------------------------------------

  /** Whether a call may run its effect at `now`, and the state after the check. */
  function Gate(c: Config, s: State, now: nat): (State, bool) {
    if s.state != Open then (s, true)
    else
      match s.openedAt
      case None => (s, false)
      case Some(at) => if now - at >= c.resetAfter then (s.(state := HalfOpen), true) else (s, false)
  }

  /** The state after an effect has finished at `now`. */
  function Settle(c: Config, s: State, now: nat, ok: bool): State {
    if ok then s.(failures := 0, state := Closed)
    else
      var count := s.failures + 1;
      if count >= c.threshold then State(Open, count, Some(now))
      else if s.state == HalfOpen then State(Open, count, Some(now))
      else s.(failures := count)
  }

  function Step(c: Config, s: State, call: Call): (State, Outcome) {
    var (gated, admitted) := Gate(c, s, call.start);
    if !admitted then (gated, Rejected)
    else (Settle(c, gated, call.finish, call.ok), if call.ok then Succeeded else Failed)
  }

  class CircuitBreaker {
    const config: Config
    var state: CircuitState
    var failures: nat
    var openedAt: Option<nat>

    function View(): State
      reads this
    {
      State(state, failures, openedAt)
    }

    constructor (threshold: nat, resetAfter: nat)
      ensures config == Config(threshold, resetAfter) && View() == Initial
    {
      config := Config(threshold, resetAfter);
      state, failures, openedAt := Closed, 0, None;
    }

    /** The body of `call`: cell by cell, as the source writes it. */
    method RunCall(call: Call) returns (outcome: Outcome)
      modifies this
      ensures (View(), outcome) == Step(config, old(View()), call)
    {
      if state == Open {
        if openedAt.None? {
          return Rejected;
        }
        if call.start - openedAt.value < config.resetAfter {
          return Rejected;
        }
        state := HalfOpen;
      }
      if call.ok {
        failures := 0;
        state := Closed;
        outcome := Succeeded;
      } else {
        failures := failures + 1;
        if failures >= config.threshold {
          state := Open;
          openedAt := Some(call.finish);
        } else if state == HalfOpen {
          state := Open;
          openedAt := Some(call.finish);
        }
        outcome := Failed;
      }
    }
  }

  // ------------------------------------------------------------------
  // Sequential runs
  // ------------------------------------------------------------------

  /** The calls follow one another in time, none before `from`. */
  ghost predicate InOrder(calls: seq<Call>, from: nat)
    decreases |calls|
  {
    calls == [] || (from <= calls[0].start <= calls[0].finish && InOrder(calls[1..], calls[0].finish))
  }

  function After(c: Config, s: State, calls: seq<Call>): State
    decreases |calls|
  {
    if calls == [] then s else After(c, Step(c, s, calls[0]).0, calls[1..])
  }

  function Outcomes(c: Config, s: State, calls: seq<Call>): seq<Outcome>
    decreases |calls|
  {
    if calls == [] then []
    else
      var (next, outcome) := Step(c, s, calls[0]);
      [outcome] + Outcomes(c, next, calls[1..])
  }

  /** The failed executions after the last successful one. */
  function FailuresSince(outcomes: seq<Outcome>): nat {
    if outcomes == [] then 0
    else
      var n := |outcomes| - 1;
      match outcomes[n]
      case Succeeded => 0
      case Failed => FailuresSince(outcomes[..n]) + 1
      case Rejected => FailuresSince(outcomes[..n])
  }

  function Executions(outcomes: seq<Outcome>): nat {
    if outcomes == [] then 0 else (if outcomes[0] == Rejected then 0 else 1) + Executions(outcomes[1..])
  }

  /** What holds between calls of a sequential run; `now` is the time so far. */
  ghost predicate Settled(c: Config, s: State, now: nat) {
    match s.state
    case Closed => s.failures == 0 || s.failures < c.threshold
    case Open => s.openedAt.Some? && s.openedAt.value <= now && s.failures >= c.threshold && s.failures > 0
    case HalfOpen => false
  }

  lemma StepKeepsSettled(c: Config, s: State, now: nat, call: Call)
    requires Settled(c, s, now) && now <= call.start <= call.finish
    ensures Settled(c, Step(c, s, call).0, call.finish)
  {
  }

  /** Main theorem: between calls the breaker is never half-open, and it is open only after enough failures. */
  lemma {:induction false} RunIsSettled(c: Config, s: State, now: nat, calls: seq<Call>)
    requires Settled(c, s, now) && InOrder(calls, now)
    ensures Settled(c, After(c, s, calls), if calls == [] then now else calls[|calls| - 1].finish)
    decreases |calls|
  {
    if calls != [] {
      StepKeepsSettled(c, s, now, calls[0]);
      RunIsSettled(c, Step(c, s, calls[0]).0, calls[0].finish, calls[1..]);
    }
  }

  // ------------------------------------------------------------------
  // When a call is rejected
  // ------------------------------------------------------------------

  function Max(a: nat, b: nat): nat {
    if a >= b then a else b
  }

  /** The last call that ran its effect. */
  function LastExecuted(outcomes: seq<Outcome>): (k: Option<nat>)
    ensures k.Some? ==> k.value < |outcomes| && outcomes[k.value] != Rejected
  {
    if outcomes == [] then None
    else
      var n := |outcomes| - 1;
      if outcomes[n] != Rejected then Some(n) else LastExecuted(outcomes[..n])
  }

  /** After these calls and outcomes a call at `now` comes too early: enough failures, and the last one too recent. */
  predicate TooEarly(c: Config, calls: seq<Call>, outcomes: seq<Outcome>, now: nat)
    requires |outcomes| == |calls|
  {
    && FailuresSince(outcomes) >= Max(c.threshold, 1)
    && LastExecuted(outcomes).Some?
    && now - calls[LastExecuted(outcomes).value].finish < c.resetAfter
  }

  /** The state says how the calls so far ended. */
  ghost predicate Tells(c: Config, s: State, calls: seq<Call>, outcomes: seq<Outcome>) {
    && |outcomes| == |calls|
    && s.failures == FailuresSince(outcomes)
    && s.state == (if FailuresSince(outcomes) >= Max(c.threshold, 1) then Open else Closed)
    && (s.state == Open ==>
          LastExecuted(outcomes).Some? && s.openedAt == Some(calls[LastExecuted(outcomes).value].finish))
  }

  lemma StepTells(c: Config, s: State, calls: seq<Call>, outcomes: seq<Outcome>, call: Call)
    requires Tells(c, s, calls, outcomes)
    ensures var (next, outcome) := Step(c, s, call);
            && Tells(c, next, calls + [call], outcomes + [outcome])
            && outcome == if TooEarly(c, calls, outcomes, call.start) then Rejected
                          else if call.ok then Succeeded else Failed
  {
    var (next, outcome) := Step(c, s, call);
    assert (outcomes + [outcome])[..|outcomes|] == outcomes;
  }

  lemma {:induction false} OneCallMore(c: Config, s: State, calls: seq<Call>, call: Call)
    ensures After(c, s, calls + [call]) == Step(c, After(c, s, calls), call).0
    ensures Outcomes(c, s, calls + [call]) == Outcomes(c, s, calls) + [Step(c, After(c, s, calls), call).1]
    decreases |calls|
  {
    if calls == [] {
      assert ([] + [call])[1..] == [];
    } else {
      assert (calls + [call])[1..] == calls[1..] + [call];
      var (next, outcome) := Step(c, s, calls[0]);
      OneCallMore(c, next, calls[1..], call);
    }
  }

  lemma {:induction false} RunTells(c: Config, calls: seq<Call>)
    ensures Tells(c, After(c, Initial, calls), calls, Outcomes(c, Initial, calls))
    decreases |calls|
  {
    if calls != [] {
      var n := |calls| - 1;
      assert calls == calls[..n] + [calls[n]];
      RunTells(c, calls[..n]);
      OneCallMore(c, Initial, calls[..n], calls[n]);
      StepTells(c, After(c, Initial, calls[..n]), calls[..n], Outcomes(c, Initial, calls[..n]), calls[n]);
    }
  }

  /** Main theorem: in every sequential run the counter is the number of failed executions since the last success. */
  lemma CounterIsExact(c: Config, calls: seq<Call>)
    ensures After(c, Initial, calls).failures == FailuresSince(Outcomes(c, Initial, calls))
  {
    RunTells(c, calls);
  }

  lemma {:induction false} OutcomesOfPrefix(c: Config, calls: seq<Call>, k: nat)
    requires k <= |calls|
    ensures |Outcomes(c, Initial, calls)| == |calls|
    ensures Outcomes(c, Initial, calls)[..k] == Outcomes(c, Initial, calls[..k])
    decreases |calls|
  {
    RunTells(c, calls);
    RunTells(c, calls[..k]);
    if k < |calls| {
      var n := |calls| - 1;
      assert calls == calls[..n] + [calls[n]] && calls[..n][..k] == calls[..k];
      OneCallMore(c, Initial, calls[..n], calls[n]);
      OutcomesOfPrefix(c, calls[..n], k);
    } else {
      assert calls[..k] == calls;
    }
  }

  /**
    Main theorem: in every sequential run a call is rejected exactly when as many
    executions as the threshold, and at least one, have failed since the last success,
    and the last of them ended less than a cooldown before; any other call runs.
   */
  lemma RejectedIffTooEarly(c: Config, calls: seq<Call>, k: nat)
    requires k < |calls|
    ensures |Outcomes(c, Initial, calls)| == |calls|
    ensures var outcomes := Outcomes(c, Initial, calls);
            outcomes[k] == if TooEarly(c, calls[..k], outcomes[..k], calls[k].start) then Rejected
                           else if calls[k].ok then Succeeded else Failed
  {
    OutcomesOfPrefix(c, calls, k);
    OutcomesOfPrefix(c, calls, k + 1);
    assert calls[..k + 1] == calls[..k] + [calls[k]];
    RunTells(c, calls[..k]);
    OneCallMore(c, Initial, calls[..k], calls[k]);
    StepTells(c, After(c, Initial, calls[..k]), calls[..k], Outcomes(c, Initial, calls[..k]), calls[k]);
    assert Outcomes(c, Initial, calls)[k] == Outcomes(c, Initial, calls)[..k + 1][k];
  }

  // ------------------------------------------------------------------
  // How often a failing effect runs
  // ------------------------------------------------------------------

  ghost predicate AllFail(calls: seq<Call>) {
    forall k :: 0 <= k < |calls| ==> !calls[k].ok
  }

  function EndOf(calls: seq<Call>, from: nat): nat {
    if calls == [] then from else calls[|calls| - 1].finish
  }

  lemma {:induction false} EndIsLater(calls: seq<Call>, from: nat)
    requires InOrder(calls, from)
    ensures from <= EndOf(calls, from)
    ensures calls != [] ==> EndOf(calls, from) == EndOf(calls[1..], calls[0].finish)
    decreases |calls|
  {
    if |calls| > 1 {
      EndIsLater(calls[1..], calls[0].finish);
    } else if |calls| == 1 {
      assert calls[1..] == [];
    }
  }

  /** Once open, each further execution costs a full cooldown. */
  lemma {:induction false} OpenBound(c: Config, s: State, now: nat, calls: seq<Call>)
    requires Settled(c, s, now) && s.state == Open && InOrder(calls, now) && AllFail(calls)
    ensures Executions(Outcomes(c, s, calls)) * c.resetAfter <= EndOf(calls, now) - s.openedAt.value
    decreases |calls|
  {
    if calls != [] {
      var (next, outcome) := Step(c, s, calls[0]);
      StepKeepsSettled(c, s, now, calls[0]);
      EndIsLater(calls, now);
      OpenBound(c, next, calls[0].finish, calls[1..]);
      var n := Executions(Outcomes(c, next, calls[1..]));
      assert Outcomes(c, s, calls)[1..] == Outcomes(c, next, calls[1..]);
      OneMoreTimes(n, c.resetAfter);
    }
  }

  lemma OneMoreTimes(n: nat, d: nat)
    ensures (n + 1) * d == n * d + d
  {
  }

  /** The executions a settled breaker may still make before a cooldown is needed. */
  function Free(c: Config, s: State): nat {
    if s.state == Closed && s.failures < c.threshold then c.threshold - s.failures else 1
  }

  lemma {:induction false} FailingRunBound(c: Config, s: State, now: nat, calls: seq<Call>)
    requires Settled(c, s, now) && InOrder(calls, now) && AllFail(calls)
    ensures var n := Executions(Outcomes(c, s, calls));
            n <= Free(c, s) || (n - Free(c, s)) * c.resetAfter <= EndOf(calls, now) - now
    decreases |calls|
  {
    if calls != [] {
      var (next, outcome) := Step(c, s, calls[0]);
      StepKeepsSettled(c, s, now, calls[0]);
      EndIsLater(calls, now);
      assert Outcomes(c, s, calls)[1..] == Outcomes(c, next, calls[1..]);
      if outcome == Rejected || next.state == Closed {
        FailingRunBound(c, next, calls[0].finish, calls[1..]);
      } else {
        OpenBound(c, next, calls[0].finish, calls[1..]);
      }
    }
  }

  /**
    Main theorem: from any settled state, calls whose effects all fail execute at
    most max(threshold, 1) effects plus one for each full cooldown that elapses.
   */
  lemma BreakerBound(c: Config, s: State, now: nat, calls: seq<Call>)
    requires Settled(c, s, now) && InOrder(calls, now) && AllFail(calls) && c.resetAfter > 0
    ensures Executions(Outcomes(c, s, calls)) <= Max(c.threshold, 1) + (EndOf(calls, now) - now) / c.resetAfter
  {
    FailingRunBound(c, s, now, calls);
    EndIsLater(calls, now);
    CountBound(Executions(Outcomes(c, s, calls)), Free(c, s), c.resetAfter, EndOf(calls, now) - now);
  }

  lemma CountBound(n: nat, free: nat, d: nat, m: nat)
    requires d > 0 && (n <= free || (n - free) * d <= m)
    ensures n <= free + m / d
  {
    if n > free {
      QuotientBound(n - free, d, m);
    }
  }

  lemma QuotientBound(n: nat, d: nat, m: nat)
    requires d > 0 && n * d <= m
    ensures n <= m / d
  {
    var q := m / d;
    assert m == q * d + m % d;
    if n > q {
      Distributes(q + 1, n - q - 1, d);
      OneMoreTimes(q, d);
    }
  }

  lemma Distributes(a: nat, b: nat, d: nat)
    ensures (a + b) * d == a * d + b * d && b * d >= 0
  {
  }

  // ------------------------------------------------------------------
  // Overlapping calls
  // ------------------------------------------------------------------

  /** How a running effect ended. */
  datatype Ending = Ending(at: nat, ok: bool)

  /**
    The documentation allows a single probe after the cooldown. A second caller is kept
    out only if the probe has failed before it comes, and less than a cooldown before.
   */
  lemma SecondProbeAdmittedIff(c: Config, s: State, now: nat, first: nat, second: nat, probe: Option<Ending>)
    requires Settled(c, s, now) && s.state == Open && first - s.openedAt.value >= c.resetAfter
    requires first <= second && (probe.Some? ==> first <= probe.value.at <= second)
    ensures var probing := Gate(c, s, first).0;
            var seen := if probe.Some? then Settle(c, probing, probe.value.at, probe.value.ok) else probing;
            Gate(c, seen, second).1 <==>
              probe.None? || probe.value.ok || second - probe.value.at >= c.resetAfter
  {
  }

  function GateMany(c: Config, s: State, times: seq<nat>): (r: (State, nat))
    ensures r.1 <= |times|
    decreases |times|
  {
    if times == [] then (s, 0)
    else
      var (next, admitted) := Gate(c, s, times[0]);
      var (end, count) := GateMany(c, next, times[1..]);
      (end, count + if admitted then 1 else 0)
  }

  /** Any number of callers that arrive while the probe runs are all admitted. */
  lemma {:induction false} OverlappingProbesAllRun(c: Config, s: State, times: seq<nat>)
    requires s.state == HalfOpen || s.state == Closed
    ensures GateMany(c, s, times) == (s, |times|)
    decreases |times|
  {
    if times != [] {
      OverlappingProbesAllRun(c, s, times[1..]);
    }
  }

  // ------------------------------------------------------------------
  // The branch that reopens below the threshold
  // ------------------------------------------------------------------

  /** Calls overlap in any way, each with one atomic gate and one atomic settlement. */
  datatype Event = Enters(now: nat) | Ends(ending: Ending)

  function OnEvent(c: Config, s: State, e: Event): State {
    match e
    case Enters(now) => Gate(c, s, now).0
    case Ends(ending) => Settle(c, s, ending.at, ending.ok)
  }

  function AfterEvents(c: Config, s: State, events: seq<Event>): State
    decreases |events|
  {
    if events == [] then s else AfterEvents(c, OnEvent(c, s, events[0]), events[1..])
  }

  /** A failure in this state would reopen the breaker although it is below the threshold. */
  predicate ReopensEarly(c: Config, s: State) {
    s.failures + 1 < c.threshold && s.state == HalfOpen
  }

  ghost predicate EnoughFailures(c: Config, s: State) {
    s.state != Closed ==> s.failures >= c.threshold && s.openedAt.Some?
  }

  lemma {:induction false} EventsKeepEnoughFailures(c: Config, s: State, events: seq<Event>)
    requires EnoughFailures(c, s)
    ensures EnoughFailures(c, AfterEvents(c, s, events))
    decreases |events|
  {
    if events != [] {
      EventsKeepEnoughFailures(c, OnEvent(c, s, events[0]), events[1..]);
    }
  }

  /**
    Main theorem: as long as gates and settlements are atomic, calls may overlap in
    any way and a failure never takes that branch.
   */
  lemma SecondReopenIsDead(c: Config, events: seq<Event>)
    ensures !ReopensEarly(c, AfterEvents(c, Initial, events))
  {
    EventsKeepEnoughFailures(c, Initial, events);
  }

  /** The single writes of a settlement. */
  datatype Write = ResetFailures | Close | CountFailure | Reopen | Stamp(now: nat)

  function Apply(s: State, w: Write): State {
    match w
    case ResetFailures => s.(failures := 0)
    case Close => s.(state := Closed)
    case CountFailure => s.(failures := s.failures + 1)
    case Reopen => s.(state := Open)
    case Stamp(now) => s.(openedAt := Some(now))
  }

  function ApplyAll(s: State, writes: seq<Write>): State
    decreases |writes|
  {
    if writes == [] then s else ApplyAll(Apply(s, writes[0]), writes[1..])
  }

  lemma ApplyFirst(s: State, w: Write, rest: seq<Write>)
    ensures ApplyAll(s, [w] + rest) == ApplyAll(Apply(s, w), rest)
  {
    assert ([w] + rest)[1..] == rest;
  }

  /** The writes of a settlement that starts in state `s`, in the order of the source. */
  function Writes(c: Config, s: State, now: nat, ok: bool): seq<Write> {
    if ok then [ResetFailures, Close]
    else [CountFailure] + if s.failures + 1 >= c.threshold || s.state == HalfOpen then [Reopen, Stamp(now)] else []
  }

  lemma SettleIsItsWrites(c: Config, s: State, now: nat, ok: bool)
    ensures ApplyAll(s, Writes(c, s, now, ok)) == Settle(c, s, now, ok)
  {
    if ok {
      ApplyFirst(s, ResetFailures, [Close]);
      ApplyFirst(Apply(s, ResetFailures), Close, []);
    } else {
      var counted := Apply(s, CountFailure);
      ApplyFirst(s, CountFailure, Writes(c, s, now, false)[1..]);
      ApplyFirst(counted, Reopen, [Stamp(now)]);
      ApplyFirst(Apply(counted, Reopen), Stamp(now), []);
    }
  }

  /**
    Where that ends: between the two writes of a success, and after a success that
    comes between the count and the reopening of a failure, a half-open breaker takes
    the branch whenever the threshold is above one.
   */
  lemma SplitSettlementsReopenEarly(c: Config, s: State, now: nat)
    requires s.state == HalfOpen && s.openedAt.Some? && now >= s.openedAt.value + c.resetAfter
    ensures ReopensEarly(c, Apply(s, ResetFailures)) <==> c.threshold > 1
    ensures var late := ApplyAll(s, [CountFailure, ResetFailures, Close, Reopen]);
            Gate(c, late, now).1 && (ReopensEarly(c, Gate(c, late, now).0) <==> c.threshold > 1)
  {
    var counted := Apply(s, CountFailure);
    ApplyFirst(s, CountFailure, [ResetFailures, Close, Reopen]);
    ApplyFirst(counted, ResetFailures, [Close, Reopen]);
    ApplyFirst(Apply(counted, ResetFailures), Close, [Reopen]);
    ApplyFirst(Apply(Apply(counted, ResetFailures), Close), Reopen, []);
  }

  /**
    A caller between the last two writes of a failure sees the stamp of the time before:
    it is rejected if there is none, and otherwise as if the breaker had opened then.
   */
  lemma OldStampDecides(c: Config, s: State, now: nat)
    ensures var reopened := ApplyAll(s, [CountFailure, Reopen]);
            Gate(c, reopened, now).1 <==> s.openedAt.Some? && now >= s.openedAt.value + c.resetAfter
  {
    ApplyFirst(s, CountFailure, [Reopen]);
    ApplyFirst(Apply(s, CountFailure), Reopen, []);
  }
}
