/**
  The saga runner: forward steps in order and, when one fails, the compensations
  of the completed steps in reverse. An effect is a step on an outside world that
  returns `Ok` or `Err`; a failing effect may have changed the world.
 */
module Saga {
  import opened Options

  datatype Outcome<+E> = Ok | Err(error: E)

  datatype SagaError<+E> = Forward(error: E) | Compensate(error: E)

  type Effect<!W, !E> = W -> (W, Outcome<E>)

  datatype Step<!W, !E> = Step(name: string, forward: Effect<W, E>, compensate: Option<Effect<W, E>>)

  /** What the runner did, in order. */
  datatype Action = Ran(step: nat) | Undid(step: nat)

  /** The world left behind, the actions taken, and the error returned, if any. */
  datatype Trace<+W, +E> = Trace(world: W, log: seq<Action>, error: Option<SagaError<E>>)

  /** What follows, with the actions taken before it. */
  function After<W, E>(log: seq<Action>, rest: Trace<W, E>): Trace<W, E> {
    rest.(log := log + rest.log)
  }

  lemma AfterBoth<W, E>(first: seq<Action>, second: seq<Action>, rest: Trace<W, E>)
    ensures After(first, After(second, rest)) == After(first + second, rest)
  {
    assert first + (second + rest.log) == first + second + rest.log;
  }

  lemma AfterNothing<W, E>(rest: Trace<W, E>)
    ensures After([], rest) == rest
  {
    assert [] + rest.log == rest.log;
  }

  // ------------------------------------------------------------------
  // Compensation
  // ------------------------------------------------------------------

  predicate InRange<W, E>(steps: seq<Step<W, E>>, indices: seq<nat>) {
    forall k :: 0 <= k < |indices| ==> indices[k] < |steps|
  }

  /** Compensating the given steps, last index first; the first failure stops it. */
  function Undo<W, E>(steps: seq<Step<W, E>>, indices: seq<nat>, world: W): Trace<W, E>
    requires InRange(steps, indices)
  {
    if indices == [] then Trace(world, [], None)
    else
      var i, others := indices[|indices| - 1], indices[..|indices| - 1];
      if steps[i].compensate.None? then Undo(steps, others, world)
      else
        var (after, outcome) := steps[i].compensate.value(world);
        if outcome.Err? then Trace(after, [Undid(i)], Some(Compensate(outcome.error)))
        else After([Undid(i)], Undo(steps, others, after))
  }

  method CompensateIndices<W, E>(steps: seq<Step<W, E>>, indices: seq<nat>, world: W)
    returns (final: W, log: seq<Action>, error: Option<SagaError<E>>)
    requires InRange(steps, indices)
    ensures Trace(final, log, error) == Undo(steps, indices, world)
  {
    final, log, error := world, [], None;
    assert indices[..|indices|] == indices;
    AfterNothing(Undo(steps, indices, world));
    for n := |indices| downto 0
      invariant error == None
      invariant Undo(steps, indices, world) == After(log, Undo(steps, indices[..n], final))
    {
      assert indices[..n + 1][..n] == indices[..n];
      var comp := steps[indices[n]].compensate;
      if comp.Some? {
        var (after, outcome) := comp.value(final);
        AfterBoth(log, [Undid(indices[n])], Undo(steps, indices[..n], after));
        final, log := after, log + [Undid(indices[n])];
        if outcome.Err? {
          error := Some(Compensate(outcome.error));
          return;
        }
      }
    }
  }

  // ------------------------------------------------------------------
  // Run
  // ------------------------------------------------------------------

  function FirstIndices(n: nat): (r: seq<nat>)
    ensures |r| == n && forall k :: 0 <= k < n ==> r[k] == k
  {
    seq(n, k => k)
  }

  /** The forward error is reported unless a compensation failed. */
  function Blamed<W, E>(undone: Trace<W, E>, error: E): Trace<W, E> {
    if undone.error.Some? then undone else undone.(error := Some(Forward(error)))
  }

  /** The rest of a run, when the steps before `k` have completed. */
  function RunFrom<W, E>(steps: seq<Step<W, E>>, k: nat, world: W): Trace<W, E>
    requires k <= |steps|
    decreases |steps| - k
  {
    if k == |steps| then Trace(world, [], None)
    else
      var (after, outcome) := steps[k].forward(world);
      if outcome.Ok? then After([Ran(k)], RunFrom(steps, k + 1, after))
      else
        var undone := Undo(steps, FirstIndices(k), after);
        After([Ran(k)], Blamed(undone, outcome.error))
  }

  method Run<W, E>(steps: seq<Step<W, E>>, world: W) returns (final: W, log: seq<Action>, error: Option<SagaError<E>>)
    ensures Trace(final, log, error) == RunFrom(steps, 0, world)
  {
    final, log, error := world, [], None;
    AfterNothing(RunFrom(steps, 0, world));
    var completed: seq<nat> := [];
    for idx := 0 to |steps|
      invariant completed == FirstIndices(idx) && error == None
      invariant RunFrom(steps, 0, world) == After(log, RunFrom(steps, idx, final))
    {
      var (after, outcome) := steps[idx].forward(final);
      if outcome.Err? {
        var undoLog;
        AfterBoth(log, [Ran(idx)], Blamed(Undo(steps, completed, after), outcome.error));
        final, undoLog, error := CompensateIndices(steps, completed, after);
        log := log + [Ran(idx)] + undoLog;
        error := if error.Some? then error else Some(Forward(outcome.error));
        return;
      }
      AfterBoth(log, [Ran(idx)], RunFrom(steps, idx + 1, after));
      log := log + [Ran(idx)];
      final, completed := after, completed + [idx];
    }
  }

  // ------------------------------------------------------------------
  // What a run does, stated without the runner
  // ------------------------------------------------------------------

  /** The world after the first `k` forward effects. */
  ghost function WorldBefore<W, E>(steps: seq<Step<W, E>>, k: nat, world: W): W
    requires k <= |steps|
  {
    if k == 0 then world else steps[k - 1].forward(WorldBefore(steps, k - 1, world)).0
  }

  ghost function OutcomeOf<W, E>(steps: seq<Step<W, E>>, k: nat, world: W): Outcome<E>
    requires k < |steps|
  {
    steps[k].forward(WorldBefore(steps, k, world)).1
  }

  /** The first `k` forward effects succeed. */
  ghost predicate Completes<W, E>(steps: seq<Step<W, E>>, k: nat, world: W)
    requires k <= |steps|
  {
    forall j: nat :: j < k ==> OutcomeOf(steps, j, world) == Ok
  }

  /** Step `k` is the first whose forward effect fails. */
  ghost predicate FailsAt<W, E>(steps: seq<Step<W, E>>, k: nat, world: W) {
    k < |steps| && Completes(steps, k, world) && OutcomeOf(steps, k, world).Err?
  }

  /** The compensation runs of a rollback: going down, and only steps before `k` that can be compensated. */
  ghost predicate IsRollback<W, E>(steps: seq<Step<W, E>>, k: nat, log: seq<Action>)
    requires k <= |steps|
  {
    && (forall i :: 0 <= i < |log| ==> log[i].Undid? && log[i].step < k && steps[log[i].step].compensate.Some?)
    && (forall i, j :: 0 <= i < j < |log| ==> log[j].step < log[i].step)
  }

  /** Nothing the rollback should have reached is missing, down to step `from`. */
  ghost predicate Reaches<W, E>(steps: seq<Step<W, E>>, k: nat, log: seq<Action>, from: nat)
    requires k <= |steps|
  {
    forall i: nat :: from <= i < k && steps[i].compensate.Some? ==> Undid(i) in log
  }

  ghost predicate ExactRollback<W, E>(steps: seq<Step<W, E>>, k: nat, undone: Trace<W, E>)
    requires k <= |steps|
  {
    && IsRollback(steps, k, undone.log)
    && (undone.error.None? ==> Reaches(steps, k, undone.log, 0))
    && (undone.error.Some? ==>
          && undone.error.value.Compensate? && undone.log != []
          && Reaches(steps, k, undone.log, undone.log[|undone.log| - 1].step))
  }

  /**
    The rollback after a failure at step `k` runs exactly the compensations of the
    completed steps, in reverse; when one fails it is the last to run.
   */
  lemma {:induction false} RollbackIsExact<W, E>(steps: seq<Step<W, E>>, k: nat, world: W)
    requires k <= |steps|
    ensures ExactRollback(steps, k, Undo(steps, FirstIndices(k), world))
  {
    if k > 0 {
      var i := k - 1;
      assert FirstIndices(k)[..i] == FirstIndices(i);
      if steps[i].compensate.None? {
        RollbackIsExact(steps, i, world);
      } else {
        var (after, outcome) := steps[i].compensate.value(world);
        if outcome.Ok? {
          RollbackIsExact(steps, i, after);
          LongerRollback(steps, i, Undo(steps, FirstIndices(i), after));
        }
      }
    }
  }

  lemma LongerRollback<W, E>(steps: seq<Step<W, E>>, i: nat, undone: Trace<W, E>)
    requires i < |steps| && steps[i].compensate.Some? && ExactRollback(steps, i, undone)
    ensures ExactRollback(steps, i + 1, After([Undid(i)], undone))
  {
    LongerLog(steps, i, undone.log, if undone.error.None? then 0 else undone.log[|undone.log| - 1].step);
  }

  lemma LongerLog<W, E>(steps: seq<Step<W, E>>, i: nat, log: seq<Action>, from: nat)
    requires i < |steps| && steps[i].compensate.Some? && IsRollback(steps, i, log) && Reaches(steps, i, log, from)
    ensures IsRollback(steps, i + 1, [Undid(i)] + log) && Reaches(steps, i + 1, [Undid(i)] + log, from)
  {
    var longer := [Undid(i)] + log;
    assert longer[0] == Undid(i);
    forall j: nat | from <= j < i + 1 && steps[j].compensate.Some?
      ensures Undid(j) in longer
    {
      assert j == i || Undid(j) in log;
    }
  }

  /** Entry `i` of the rollback takes one world to the next; it fails only as the last one, and is blamed then. */
  ghost predicate TakesBack<W, E>(steps: seq<Step<W, E>>, undone: Trace<W, E>, worlds: seq<W>, i: nat)
    requires i < |undone.log| && |worlds| == |undone.log| + 1
    requires undone.log[i].step < |steps| && steps[undone.log[i].step].compensate.Some?
  {
    var (after, outcome) := steps[undone.log[i].step].compensate.value(worlds[i]);
    && worlds[i + 1] == after
    && if i + 1 == |undone.log| && undone.error.Some?
       then outcome.Err? && undone.error == Some(Compensate(outcome.error))
       else outcome == Ok
  }

  ghost predicate RunsThrough<W, E>(steps: seq<Step<W, E>>, k: nat, undone: Trace<W, E>, worlds: seq<W>)
    requires k <= |steps|
  {
    && IsRollback(steps, k, undone.log) && |worlds| == |undone.log| + 1
    && forall i: nat :: i < |undone.log| ==> TakesBack(steps, undone, worlds, i)
  }

  /** The rollback runs its compensations one after the other, each in the world that the one before it left. */
  lemma {:induction false} RollbackRuns<W, E>(steps: seq<Step<W, E>>, k: nat, world: W) returns (worlds: seq<W>)
    requires k <= |steps|
    ensures var undone := Undo(steps, FirstIndices(k), world);
            RunsThrough(steps, k, undone, worlds) && worlds[0] == world && worlds[|undone.log|] == undone.world
  {
    if k == 0 {
      worlds := [world];
    } else {
      var i := k - 1;
      assert FirstIndices(k)[..i] == FirstIndices(i);
      if steps[i].compensate.None? {
        worlds := RollbackRuns(steps, i, world);
      } else {
        var (after, outcome) := steps[i].compensate.value(world);
        if outcome.Err? {
          worlds := [world, after];
        } else {
          var tail := RollbackRuns(steps, i, after);
          worlds := [world] + tail;
          RollbackIsExact(steps, i, after);
          LongerRun(steps, i, world, Undo(steps, FirstIndices(i), after), tail);
        }
      }
    }
  }

  lemma LongerRun<W, E>(steps: seq<Step<W, E>>, i: nat, world: W, undone: Trace<W, E>, tail: seq<W>)
    requires i < |steps| && steps[i].compensate.Some? && RunsThrough(steps, i, undone, tail)
    requires undone.error.Some? ==> undone.log != []
    requires steps[i].compensate.value(world) == (tail[0], Ok)
    ensures RunsThrough(steps, i + 1, After([Undid(i)], undone), [world] + tail)
  {
    var longer, worlds := After([Undid(i)], undone), [world] + tail;
    LongerLog(steps, i, undone.log, i);
    forall j: nat | j < |longer.log|
      ensures TakesBack(steps, longer, worlds, j)
    {
      if j > 0 {
        assert TakesBack(steps, undone, tail, j - 1);
        assert longer.log[j] == undone.log[j - 1] && worlds[j] == tail[j - 1] && worlds[j + 1] == tail[j];
      }
    }
  }

  /** The forward runs `from`, ..., `to - 1`. */
  ghost function RanBetween(from: nat, to: nat): seq<Action>
    requires from <= to
  {
    seq(to - from, k requires 0 <= k < to - from => Ran(from + k))
  }

  lemma {:induction false} RunFollows<W, E>(steps: seq<Step<W, E>>, j: nat, k: nat, world: W)
    requires j <= k <= |steps| && Completes(steps, k, world)
    ensures RunFrom(steps, j, WorldBefore(steps, j, world)) ==
            After(RanBetween(j, k), RunFrom(steps, k, WorldBefore(steps, k, world)))
    decreases k - j
  {
    var rest := RunFrom(steps, k, WorldBefore(steps, k, world));
    if j == k {
      AfterNothing(rest);
    } else {
      RunFollows(steps, j + 1, k, world);
      AfterBoth([Ran(j)], RanBetween(j + 1, k), rest);
      assert OutcomeOf(steps, j, world) == Ok;
      assert RanBetween(j, k) == [Ran(j)] + RanBetween(j + 1, k);
    }
  }

  /** A saga completes exactly when no forward effect fails, and then compensates nothing. */
  lemma SucceedsIff<W, E>(steps: seq<Step<W, E>>, world: W)
    ensures RunFrom(steps, 0, world).error.None? <==> Completes(steps, |steps|, world)
    ensures Completes(steps, |steps|, world) ==>
      RunFrom(steps, 0, world) == Trace(WorldBefore(steps, |steps|, world), RanBetween(0, |steps|), None)
  {
    if Completes(steps, |steps|, world) {
      RunFollows(steps, 0, |steps|, world);
    } else {
      var k := FirstFailure(steps, |steps|, world);
      FailureIsRolledBack(steps, k, world);
    }
  }

  lemma {:induction false} FirstFailure<W, E>(steps: seq<Step<W, E>>, n: nat, world: W) returns (k: nat)
    requires n <= |steps| && !Completes(steps, n, world)
    ensures FailsAt(steps, k, world)
  {
    if Completes(steps, n - 1, world) {
      k := n - 1;
    } else {
      k := FirstFailure(steps, n - 1, world);
    }
  }

  /**
    A saga whose step `k` is the first to fail runs the steps up to `k` once each in
    order, then the rollback, and reports the forward error unless a compensation failed.
   */
  lemma FailureIsRolledBack<W, E>(steps: seq<Step<W, E>>, k: nat, world: W)
    requires FailsAt(steps, k, world)
    ensures var run, undone := RunFrom(steps, 0, world), Undo(steps, FirstIndices(k), WorldBefore(steps, k + 1, world));
            && run.world == undone.world
            && run.log == RanBetween(0, k + 1) + undone.log
            && (undone.error.Some? ==> run.error == undone.error)
            && (undone.error.None? ==> run.error == Some(Forward(OutcomeOf(steps, k, world).error)))
  {
    var undone := Undo(steps, FirstIndices(k), WorldBefore(steps, k + 1, world));
    RunFollows(steps, 0, k, world);
    AfterBoth(RanBetween(0, k), [Ran(k)], Blamed(undone, OutcomeOf(steps, k, world).error));
    assert RanBetween(0, k + 1) == RanBetween(0, k) + [Ran(k)];
  }

  // ------------------------------------------------------------------
  // Rollback restores the world
  // ------------------------------------------------------------------

  /** The compensation takes a successful forward effect back. */
  ghost predicate Inverts<W(!new), E>(step: Step<W, E>) {
    step.compensate.Some? &&
    forall w {:trigger step.forward(w)} ::
      step.forward(w).1 == Ok ==> step.compensate.value(step.forward(w).0) == (w, Ok)
  }

  lemma UndoTakesLast<W, E>(steps: seq<Step<W, E>>, k: nat, after: W, before: W)
    requires k < |steps| && steps[k].compensate.Some? && steps[k].compensate.value(after) == (before, Ok)
    ensures Undo(steps, FirstIndices(k + 1), after) == After([Undid(k)], Undo(steps, FirstIndices(k), before))
  {
    assert FirstIndices(k + 1)[..k] == FirstIndices(k);
  }

  lemma {:induction false} UndoRestores<W(!new), E>(steps: seq<Step<W, E>>, k: nat, world: W)
    requires k <= |steps| && Completes(steps, k, world)
    requires forall j: nat :: j < k ==> Inverts(steps[j])
    ensures Undo(steps, FirstIndices(k), WorldBefore(steps, k, world)).world == world
    ensures Undo(steps, FirstIndices(k), WorldBefore(steps, k, world)).error == None
  {
    if k > 0 {
      UndoRestores(steps, k - 1, world);
      assert OutcomeOf(steps, k - 1, world) == Ok && Inverts(steps[k - 1]);
      UndoTakesLast(steps, k - 1, WorldBefore(steps, k, world), WorldBefore(steps, k - 1, world));
    }
  }

  /**
    Main theorem: when every completed step's compensation inverts it and the failing
    effect left the world as it found it, the failed saga restores the initial world.
   */
  lemma FailedSagaRestores<W(!new), E>(steps: seq<Step<W, E>>, k: nat, world: W)
    requires FailsAt(steps, k, world)
    requires forall j: nat :: j < k ==> Inverts(steps[j])
    requires WorldBefore(steps, k + 1, world) == WorldBefore(steps, k, world)
    ensures RunFrom(steps, 0, world).world == world
    ensures RunFrom(steps, 0, world).error == Some(Forward(OutcomeOf(steps, k, world).error))
  {
    FailureIsRolledBack(steps, k, world);
    UndoRestores(steps, k, world);
  }

  /** Compensations that never fail and never send two worlds to one. */
  ghost predicate Injective<W(!new), E>(step: Step<W, E>) {
    step.compensate.Some? &&
    (forall w {:trigger step.compensate.value(w)} :: step.compensate.value(w).1 == Ok) &&
    forall a, b {:trigger step.compensate.value(a), step.compensate.value(b)} ::
      step.compensate.value(a).0 == step.compensate.value(b).0 ==> a == b
  }

  lemma {:induction false} UndoIsInjective<W(!new), E>(steps: seq<Step<W, E>>, k: nat, a: W, b: W)
    requires k <= |steps|
    requires forall j: nat :: j < k ==> Injective(steps[j])
    requires Undo(steps, FirstIndices(k), a).world == Undo(steps, FirstIndices(k), b).world
    ensures a == b
  {
    if k > 0 {
      var comp := steps[k - 1].compensate;
      assert FirstIndices(k)[..k - 1] == FirstIndices(k - 1);
      assert Injective(steps[k - 1]);
      UndoIsInjective(steps, k - 1, comp.value(a).0, comp.value(b).0);
    }
  }

  /**
    The failing step itself is never compensated: with reversible compensations the
    world is restored exactly when the failing effect left it unchanged.
   */
  lemma RestoredIffFailureWasClean<W(!new), E>(steps: seq<Step<W, E>>, k: nat, world: W)
    requires FailsAt(steps, k, world)
    requires forall j: nat :: j < k ==> Inverts(steps[j]) && Injective(steps[j])
    ensures RunFrom(steps, 0, world).world == world <==>
            WorldBefore(steps, k + 1, world) == WorldBefore(steps, k, world)
  {
    FailureIsRolledBack(steps, k, world);
    UndoRestores(steps, k, world);
    if RunFrom(steps, 0, world).world == world {
      UndoIsInjective(steps, k, WorldBefore(steps, k + 1, world), WorldBefore(steps, k, world));
    }
  }
}
