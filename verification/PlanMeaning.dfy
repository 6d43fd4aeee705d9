/** When running the plan of a chunk list gives the same result as running the chunks one by one. */
module PlanMeaning {
  import opened Results
  import opened EffectGraph
  import opened PlanShapes

  type Env<V> = map<string, V>

  /**
    The meaning of a program's parts, each at the place of its chunk: `prepare`
    evaluates an operand to an effect, `perform` runs the effect, `resume`
    evaluates what follows the operand in the same expression, `ascribe` fits a
    value to an annotation, and `exec` runs a chunk that is not a bind. Each may
    fail, and a failure ends the block.
   */
  datatype Semantics<!V, !E> = Semantics(
    prepare: (nat, Tokens, map<string, V>) -> Result<V, E>,
    perform: (nat, V) -> Result<V, E>,
    resume: (nat, V, Tokens, map<string, V>) -> Result<V, E>,
    ascribe: (nat, Tokens, V) -> Result<V, E>,
    exec: (nat, Tokens, map<string, V>) -> Result<map<string, V>, E>)

  /** The environments agree on every identifier that stands in the tokens, at any depth. */
  ghost predicate AgreeOn<V>(tokens: Tokens, a: Env<V>, b: Env<V>) {
    forall n :: Occurs(tokens, Ident(n)) ==> (n in a <==> n in b) && (n in a ==> a[n] == b[n])
  }

  /** Evaluating the tokens may leave the block early: a nested bind, a `?` or a `return`, at any depth. */
  ghost predicate MayExit(tokens: Tokens) {
    Occurs(tokens, Punct('~')) || Occurs(tokens, Punct('?')) || Occurs(tokens, Ident("return"))
  }

  /**
    Evaluating an operand depends only on the names in it, and fails only where it
    may leave the block. No annotation asks for nothing.
   */
  ghost predicate Lawful<V(!new), E(!new)>(sem: Semantics<V, E>) {
    && (forall at, t, a, b :: AgreeOn(t, a, b) ==> sem.prepare(at, t, a) == sem.prepare(at, t, b))
    && (forall at, t, env :: !MayExit(t) ==> sem.prepare(at, t, env).Ok?)
    && (forall at, v :: sem.ascribe(at, [], v) == Ok(v))
  }

  // ------------------------------------------------------------------
  // The operand of a prefix `~` in sequential code
  // ------------------------------------------------------------------

  /**
    How many tokens belong to the operand: it ends early at `,` `;` `>` outside angle
    brackets, and at a brace group.
   */
  function OperandLength(tokens: Tokens, depth: nat): (n: nat)
    ensures n <= |tokens|
    decreases |tokens|
  {
    if tokens == [] || EndsOperand(tokens[0], depth) then 0
    else 1 + OperandLength(tokens[1..], NextDepth(tokens[0], depth))
  }

  predicate EndsOperand(token: Token, depth: nat) {
    if token.Punct? then depth == 0 && token.ch in {',', ';', '>'} else token.Group? && token.delimiter == Brace
  }

  /** A `,`, `;` or `>` outside angle brackets stands at `k`, or a brace group. */
  ghost predicate Terminates(tokens: Tokens, k: nat, depth: nat)
    requires k < |tokens|
  {
    || (tokens[k] in [Punct(','), Punct(';'), Punct('>')] && Depth(tokens[..k], depth) == 0)
    || exists inside :: tokens[k] == Group(Brace, inside)
  }

  /** The operand stops at the first token that ends it at its own angle depth. */
  lemma {:induction false} OperandStopsFirst(tokens: Tokens, depth: nat)
    ensures var n := OperandLength(tokens, depth);
            && (n < |tokens| ==> Terminates(tokens, n, depth))
            && forall k :: 0 <= k < n ==> !Terminates(tokens, k, depth)
  {
    if tokens != [] {
      assert tokens[..0] == [];
      assert EndsOperand(tokens[0], depth) <==> Terminates(tokens, 0, depth);
    }
    if tokens != [] && !EndsOperand(tokens[0], depth) {
      var next := NextDepth(tokens[0], depth);
      OperandStopsFirst(tokens[1..], next);
      forall k | 0 < k < |tokens|
        ensures Terminates(tokens, k, depth) <==> Terminates(tokens[1..], k - 1, next)
      {
        assert tokens[..k][1..] == tokens[1..][..k - 1];
      }
    }
  }

  /** Sequential code runs all tokens after `~` as the operand. */
  predicate Whole(step: BindStep) {
    OperandLength(step.operand, 0) == |step.operand|
  }

  /** The operand is whole and there is no annotation to lose. */
  predicate Movable(step: BindStep) {
    Whole(step) && step.annotation == []
  }

  // ------------------------------------------------------------------
  // Sequential meaning
  // ------------------------------------------------------------------

  function RunOperand<V, E>(sem: Semantics<V, E>, at: nat, tokens: Tokens, env: Env<V>): Result<V, E> {
    var effect := sem.prepare(at, tokens, env);
    if effect.Err? then effect else sem.perform(at, effect.value)
  }

  /** The pattern `_` binds nothing. */
  function Let<V>(env: Env<V>, name: string, value: V): Env<V> {
    if name == "_" then env else env[name := value]
  }

  /** The value of `~operand` in sequential code. */
  function OperandValue<V, E>(sem: Semantics<V, E>, at: nat, step: BindStep, env: Env<V>): Result<V, E> {
    var n := OperandLength(step.operand, 0);
    var value := RunOperand(sem, at, step.operand[..n], env);
    if value.Err? || n == |step.operand| then value else sem.resume(at, value.value, step.operand[n..], env)
  }

  /** The value that sequential code binds. */
  function StepValue<V, E>(sem: Semantics<V, E>, at: nat, step: BindStep, env: Env<V>): Result<V, E> {
    var value := OperandValue(sem, at, step, env);
    if value.Err? then value else sem.ascribe(at, step.annotation, value.value)
  }

  function RunStep<V, E>(sem: Semantics<V, E>, at: nat, step: BindStep, env: Env<V>): Result<Env<V>, E> {
    var value := StepValue(sem, at, step, env);
    if value.Err? then Err(value.error) else Ok(Let(env, step.name, value.value))
  }

  function RunSteps<V, E>(sem: Semantics<V, E>, at: nat, steps: seq<BindStep>, env: Env<V>): Result<Env<V>, E>
    decreases |steps|
  {
    if steps == [] then Ok(env)
    else
      var next := RunStep(sem, at, steps[0], env);
      if next.Err? then next else RunSteps(sem, at + 1, steps[1..], next.value)
  }

  function RunChunk<V, E>(sem: Semantics<V, E>, of: Classifier, at: nat, chunk: Tokens,
                          env: Env<V>): Result<Env<V>, E> {
    match of(chunk)
    case Blank => Ok(env)
    case Plain => sem.exec(at, chunk, env)
    case Bind(step) => RunStep(sem, at, step, env)
  }

  /** The chunks from `i` on, one by one. */
  function RunChunks<V, E>(sem: Semantics<V, E>, of: Classifier, chunks: seq<Tokens>, i: nat,
                           env: Env<V>): Result<Env<V>, E>
    requires i <= |chunks|
    decreases |chunks| - i
  {
    if i == |chunks| then Ok(env)
    else
      var next := RunChunk(sem, of, i, chunks[i], env);
      if next.Err? then next else RunChunks(sem, of, chunks, i + 1, next.value)
  }

  // ------------------------------------------------------------------
  // Parallel meaning
  // ------------------------------------------------------------------

  /** The operands of a set are evaluated from left to right, as arguments of the join. */
  function PrepareAll<V, E>(sem: Semantics<V, E>, at: nat, steps: seq<BindStep>, entry: Env<V>): (r: Result<seq<V>, E>)
    ensures r.Ok? ==> |r.value| == |steps|
    decreases |steps|
  {
    if steps == [] then Ok([])
    else
      var first := sem.prepare(at, steps[0].operand, entry);
      if first.Err? then Err(first.error)
      else
        var rest := PrepareAll(sem, at + 1, steps[1..], entry);
        if rest.Err? then rest else Ok([first.value] + rest.value)
  }

  /** All effects run; the leftmost failure is reported. */
  function PerformAll<V, E>(sem: Semantics<V, E>, at: nat, effects: seq<V>): (r: Result<seq<V>, E>)
    ensures r.Ok? ==> |r.value| == |effects|
    decreases |effects|
  {
    if effects == [] then Ok([])
    else
      var first := sem.perform(at, effects[0]);
      if first.Err? then Err(first.error)
      else
        var rest := PerformAll(sem, at + 1, effects[1..]);
        if rest.Err? then rest else Ok([first.value] + rest.value)
  }

  function JoinValues<V, E>(sem: Semantics<V, E>, at: nat, steps: seq<BindStep>, entry: Env<V>): (r: Result<seq<V>, E>)
    ensures r.Ok? ==> |r.value| == |steps|
  {
    var effects := PrepareAll(sem, at, steps, entry);
    if effects.Err? then effects else PerformAll(sem, at, effects.value)
  }

  function BindAll<V>(steps: seq<BindStep>, values: seq<V>, env: Env<V>): Env<V>
    requires |steps| == |values|
  {
    if steps == [] then env else BindAll(steps[1..], values[1..], Let(env, steps[0].name, values[0]))
  }

  function Bound<V, E>(steps: seq<BindStep>, values: Result<seq<V>, E>, env: Env<V>): Result<Env<V>, E>
    requires values.Ok? ==> |values.value| == |steps|
  {
    if values.Err? then Err(values.error) else Ok(BindAll(steps, values.value, env))
  }

  function RunSet<V, E>(sem: Semantics<V, E>, at: nat, steps: seq<BindStep>, env: Env<V>): Result<Env<V>, E> {
    Bound(steps, JoinValues(sem, at, steps, env), env)
  }

  /** The same bind without its annotation, as a set emits it. */
  function Bare(step: BindStep): BindStep {
    step.(annotation := [])
  }

  function AllBare(steps: seq<BindStep>): (bare: seq<BindStep>)
    ensures |bare| == |steps|
  {
    seq(|steps|, k requires 0 <= k < |steps| => Bare(steps[k]))
  }

  lemma {:induction false} BareSteps<V, E>(sem: Semantics<V, E>, at: nat, steps: seq<BindStep>, entry: Env<V>)
    ensures PrepareAll(sem, at, AllBare(steps), entry) == PrepareAll(sem, at, steps, entry)
    ensures forall values: seq<V>, env ::
              |values| == |steps| ==> BindAll(AllBare(steps), values, env) == BindAll(steps, values, env)
    decreases |steps|
  {
    if steps != [] {
      assert AllBare(steps)[1..] == AllBare(steps[1..]);
      BareSteps(sem, at + 1, steps[1..], entry);
    }
  }

  /** A set does the same whatever the annotations of its binds say. */
  lemma SetsDropAnnotations<V, E>(sem: Semantics<V, E>, at: nat, steps: seq<BindStep>, env: Env<V>)
    ensures RunSet(sem, at, steps, env) == RunSet(sem, at, AllBare(steps), env)
  {
    BareSteps(sem, at, steps, env);
    var values := JoinValues(sem, at, steps, env);
    assert JoinValues(sem, at, AllBare(steps), env) == values;
    if values.Ok? {
      assert BindAll(AllBare(steps), values.value, env) == BindAll(steps, values.value, env);
    }
  }

  function RunEntry<V, E>(sem: Semantics<V, E>, of: Classifier, plan: StmtPlan, at: nat,
                          env: Env<V>): Result<Env<V>, E> {
    match plan
    case Sequential(chunk) => RunChunk(sem, of, at, chunk, env)
    case ParallelSet(steps) => RunSet(sem, at, steps, env)
  }

  /** The entries of a plan, each at the place of its first chunk. */
  function RunPlan<V, E>(sem: Semantics<V, E>, of: Classifier, plans: seq<StmtPlan>, starts: seq<nat>,
                         env: Env<V>): Result<Env<V>, E>
    requires |starts| == |plans|
  {
    if plans == [] then Ok(env)
    else
      var next := RunEntry(sem, of, plans[0], starts[0], env);
      if next.Err? then next else RunPlan(sem, of, plans[1..], starts[1..], next.value)
  }

  // ------------------------------------------------------------------
  // One set
  // ------------------------------------------------------------------

  /** Equal results, or only equal on success: then a failure may carry another error. */
  predicate Agree<R(==), E(==)>(exact: bool, a: Result<R, E>, b: Result<R, E>) {
    exact || a.Ok? || b.Ok? ==> a == b
  }

  /** No member mentions the name of an earlier member. */
  ghost predicate Independent(steps: seq<BindStep>) {
    forall i, j :: 0 <= i < j < |steps| ==> !Occurs(steps[j].operand, Ident(steps[i].name))
  }

  ghost predicate AllMovable(steps: seq<BindStep>) {
    forall k :: 0 <= k < |steps| ==> Movable(steps[k])
  }

  /** The one name that a pattern may hold more than once. */
  const Wildcard: set<string> := {"_"}

  /** No member after the first can leave the block while its operand is evaluated. */
  ghost predicate OnlyFirstMayExit(steps: seq<BindStep>) {
    forall k :: 1 <= k < |steps| ==> !MayExit(steps[k].operand)
  }

  /** What a set needs to compile and keep the meaning, or only the meaning on success. */
  ghost predicate SafeSet(exact: bool, steps: seq<BindStep>) {
    AllMovable(steps) && DistinctNames(steps, Wildcard) && (exact ==> OnlyFirstMayExit(steps))
  }

  /** The members bind their values, and no other name changes. */
  ghost predicate BindsEach<V>(steps: seq<BindStep>, values: seq<V>, before: Env<V>, after: Env<V>)
    requires |steps| == |values|
  {
    && (forall k {:trigger steps[k]} :: 0 <= k < |steps| && steps[k].name != "_" ==>
          steps[k].name in after && after[steps[k].name] == values[k])
    && forall n :: Unbound(steps, n) ==> (n in after <==> n in before) && (n in after ==> after[n] == before[n])
  }

  ghost predicate Unbound(steps: seq<BindStep>, name: string) {
    name == "_" || forall k :: 0 <= k < |steps| ==> steps[k].name != name
  }

  lemma {:induction false} BindAllBindsEach<V>(steps: seq<BindStep>, values: seq<V>, env: Env<V>)
    requires |steps| == |values| && DistinctNames(steps, Wildcard)
    ensures BindsEach(steps, values, env, BindAll(steps, values, env))
  {
    if steps != [] {
      var next, after := Let(env, steps[0].name, values[0]), BindAll(steps, values, env);
      BindAllBindsEach(steps[1..], values[1..], next);
      assert steps[0].name != "_" ==> Unbound(steps[1..], steps[0].name);
      forall k | 0 <= k < |steps| && steps[k].name != "_"
        ensures steps[k].name in after && after[steps[k].name] == values[k]
      {
        assert k > 0 ==> steps[1..][k - 1] == steps[k];
      }
      forall n | Unbound(steps, n)
        ensures (n in after <==> n in env) && (n in after ==> after[n] == env[n])
      {
        assert Unbound(steps[1..], n) && (n in next <==> n in env);
      }
    }
  }

  /** A set that compiles and succeeds binds to each name the value of its own operand. */
  lemma SetBindsEach<V, E>(sem: Semantics<V, E>, at: nat, steps: seq<BindStep>, env: Env<V>)
    requires DistinctNames(steps, Wildcard) && RunSet(sem, at, steps, env).Ok?
    ensures JoinValues(sem, at, steps, env).Ok?
    ensures BindsEach(steps, JoinValues(sem, at, steps, env).value, env, RunSet(sem, at, steps, env).value)
  {
    BindAllBindsEach(steps, JoinValues(sem, at, steps, env).value, env);
  }

  /** Each operand is evaluated and run before the next, all in one environment. */
  function OneByOne<V, E>(sem: Semantics<V, E>, at: nat, steps: seq<BindStep>, entry: Env<V>): (r: Result<seq<V>, E>)
    ensures r.Ok? ==> |r.value| == |steps|
    decreases |steps|
  {
    if steps == [] then Ok([])
    else
      var first := RunOperand(sem, at, steps[0].operand, entry);
      if first.Err? then Err(first.error)
      else
        var rest := OneByOne(sem, at + 1, steps[1..], entry);
        if rest.Err? then rest else Ok([first.value] + rest.value)
  }

  lemma MovableValue<V(!new), E(!new)>(sem: Semantics<V, E>, at: nat, step: BindStep, env: Env<V>)
    requires Lawful(sem) && Movable(step)
    ensures StepValue(sem, at, step, env) == RunOperand(sem, at, step.operand, env)
  {
    assert step.operand[..|step.operand|] == step.operand;
  }

  /** Members that do not depend on each other may all be run in any environment that agrees on what they mention. */
  lemma {:induction false} StepsAreOneByOne<V(!new), E(!new)>(sem: Semantics<V, E>, at: nat, steps: seq<BindStep>,
          entry: Env<V>, env: Env<V>)
    requires Lawful(sem) && Independent(steps) && AllMovable(steps)
    requires forall k :: 0 <= k < |steps| ==> AgreeOn(steps[k].operand, entry, env)
    ensures RunSteps(sem, at, steps, env) == Bound(steps, OneByOne(sem, at, steps, entry), env)
    decreases |steps|
  {
    if steps != [] {
      MovableValue(sem, at, steps[0], env);
      assert AgreeOn(steps[0].operand, entry, env);
      var first := RunOperand(sem, at, steps[0].operand, entry);
      if first.Ok? {
        var next := Let(env, steps[0].name, first.value);
        forall k | 0 <= k < |steps[1..]|
          ensures AgreeOn(steps[1..][k].operand, entry, next)
        {
          assert AgreeOn(steps[k + 1].operand, entry, env);
          assert !Occurs(steps[k + 1].operand, Ident(steps[0].name));
        }
        StepsAreOneByOne(sem, at + 1, steps[1..], entry, next);
      }
    }
  }

  lemma {:induction false} NobodyExits<V(!new), E(!new)>(sem: Semantics<V, E>, at: nat, steps: seq<BindStep>,
          entry: Env<V>)
    requires Lawful(sem) && forall k :: 0 <= k < |steps| ==> !MayExit(steps[k].operand)
    ensures PrepareAll(sem, at, steps, entry).Ok?
    decreases |steps|
  {
    if steps != [] {
      assert !MayExit(steps[0].operand);
      NobodyExits(sem, at + 1, steps[1..], entry);
    }
  }

  /**
    Evaluating all operands before running any effect gives the same values; it gives
    the same error if only the first may exit.
   */
  lemma {:induction false} TwoPhasesAgree<V(!new), E(!new)>(exact: bool, sem: Semantics<V, E>, at: nat,
          steps: seq<BindStep>, entry: Env<V>)
    requires Lawful(sem) && (exact ==> OnlyFirstMayExit(steps))
    ensures Agree(exact, JoinValues(sem, at, steps, entry), OneByOne(sem, at, steps, entry))
    decreases |steps|
  {
    if steps != [] {
      var rest := steps[1..];
      TwoPhasesAgree(exact, sem, at + 1, rest, entry);
      if exact {
        forall k | 0 <= k < |rest|
          ensures !MayExit(rest[k].operand)
        {
          assert !MayExit(steps[k + 1].operand);
        }
        NobodyExits(sem, at + 1, rest, entry);
      }
      PeelJoin(sem, at, steps, entry);
    }
  }

  /** A join is its first member around the join of the others. */
  lemma PeelJoin<V, E>(sem: Semantics<V, E>, at: nat, steps: seq<BindStep>, entry: Env<V>)
    requires steps != []
    ensures var first, rest := sem.prepare(at, steps[0].operand, entry), PrepareAll(sem, at + 1, steps[1..], entry);
            first.Ok? && rest.Ok? ==>
              JoinValues(sem, at, steps, entry) ==
                (var done, others := sem.perform(at, first.value), JoinValues(sem, at + 1, steps[1..], entry);
                 if done.Err? then Err(done.error) else if others.Err? then others else Ok([done.value] + others.value))
  {
    var first, rest := sem.prepare(at, steps[0].operand, entry), PrepareAll(sem, at + 1, steps[1..], entry);
    if first.Ok? && rest.Ok? {
      assert ([first.value] + rest.value)[1..] == rest.value;
    }
  }

  /**
    A set of independent binds with whole operands and no annotations ends in the
    same environment as the binds one by one, and fails when they fail; the error
    is the same one if no member after the first may leave the block early.
   */
  lemma SetPreservesMeaning<V(!new), E(!new)>(exact: bool, sem: Semantics<V, E>, at: nat, steps: seq<BindStep>,
                                              env: Env<V>)
    requires Lawful(sem) && Independent(steps) && SafeSet(exact, steps)
    ensures Agree(exact, RunSet(sem, at, steps, env), RunSteps(sem, at, steps, env))
  {
    StepsAreOneByOne(sem, at, steps, env, env);
    TwoPhasesAgree(exact, sem, at, steps, env);
  }

  // ------------------------------------------------------------------
  // The whole plan
  // ------------------------------------------------------------------

  ghost predicate SetsAreSafe(exact: bool, plans: seq<StmtPlan>) {
    forall k :: 0 <= k < |plans| && plans[k].ParallelSet? ==> SafeSet(exact, plans[k].steps)
  }

  /** Members of a run of free chunks do not depend on each other. */
  lemma FreeRunIsIndependent(of: Classifier, chunks: seq<Tokens>, prior: nat -> seq<string>, s: nat,
                             steps: seq<BindStep>)
    requires TracksNames(of, chunks, prior) && FreeRun(of, chunks, prior, s, steps)
    ensures Independent(steps)
  {
    forall i, j | 0 <= i < j < |steps|
      ensures !Occurs(steps[j].operand, Ident(steps[i].name))
    {
      assert of(chunks[s + i]) == Bind(steps[i]) && !Uses(steps[j], prior(s + j));
      NameIsBound(of, chunks, prior, s + i, s + j);
    }
  }

  lemma {:induction false} NameIsBound(of: Classifier, chunks: seq<Tokens>, prior: nat -> seq<string>, i: nat, j: nat)
    requires TracksNames(of, chunks, prior) && i < j <= |chunks| && of(chunks[i]).Bind?
    ensures of(chunks[i]).step.name in prior(j)
  {
    assert NextNames(of, chunks, prior, j - 1);
    if i < j - 1 {
      NameIsBound(of, chunks, prior, i, j - 1);
    }
  }

  /** Consecutive binds run one by one, as chunks or as steps. */
  lemma {:induction false} ChunksAreSteps<V, E>(sem: Semantics<V, E>, of: Classifier, chunks: seq<Tokens>, i: nat,
                                                steps: seq<BindStep>, env: Env<V>)
    requires i + |steps| <= |chunks|
    requires forall k :: 0 <= k < |steps| ==> of(chunks[i + k]) == Bind(steps[k])
    ensures RunChunks(sem, of, chunks, i, env) ==
      (var first := RunSteps(sem, i, steps, env);
       if first.Err? then first else RunChunks(sem, of, chunks, i + |steps|, first.value))
    decreases |steps|
  {
    if steps != [] {
      var first := RunStep(sem, i, steps[0], env);
      assert of(chunks[i + 0]) == Bind(steps[0]);
      if first.Ok? {
        forall k | 0 <= k < |steps[1..]|
          ensures of(chunks[i + 1 + k]) == Bind(steps[1..][k])
        {
          assert of(chunks[i + (k + 1)]) == Bind(steps[k + 1]);
        }
        ChunksAreSteps(sem, of, chunks, i + 1, steps[1..], first.value);
      }
    }
  }

  lemma {:induction false} BlanksDoNothing<V, E>(sem: Semantics<V, E>, of: Classifier, chunks: seq<Tokens>, m: nat,
                                                 n: nat, env: Env<V>)
    requires m <= n <= |chunks| && BlankBetween(of, chunks, m, n)
    ensures RunChunks(sem, of, chunks, m, env) == RunChunks(sem, of, chunks, n, env)
    decreases n - m
  {
    if m < n {
      assert of(chunks[m]).Blank?;
      BlanksDoNothing(sem, of, chunks, m + 1, n, env);
    }
  }

  /** The first entry and its chunks. */
  lemma EntryPreservesMeaning<V(!new), E(!new)>(exact: bool, sem: Semantics<V, E>, of: Classifier, chunks: seq<Tokens>,
                                               prior: nat -> seq<string>, plan: StmtPlan, s: nat, env: Env<V>)
    returns (run: Result<Env<V>, E>)
    requires Lawful(sem) && TracksNames(of, chunks, prior) && Justified(of, chunks, prior, plan, s)
    requires plan.ParallelSet? ==> SafeSet(exact, plan.steps)
    ensures s + Size(plan) <= |chunks|
    ensures Agree(exact, RunEntry(sem, of, plan, s, env), run)
    ensures RunChunks(sem, of, chunks, s, env) ==
      if run.Err? then run else RunChunks(sem, of, chunks, s + Size(plan), run.value)
  {
    match plan {
      case Sequential(chunk) => run := RunChunk(sem, of, s, chunk, env);
      case ParallelSet(steps) =>
        run := RunSteps(sem, s, steps, env);
        FreeRunIsIndependent(of, chunks, prior, s, steps);
        SetPreservesMeaning(exact, sem, s, steps, env);
        ChunksAreSteps(sem, of, chunks, s, steps, env);
    }
  }

  /** An explained plan with safe sets does what the chunks do. */
  lemma {:induction false} ExplainedPreservesMeaning<V(!new), E(!new)>(exact: bool, sem: Semantics<V, E>,
          of: Classifier, chunks: seq<Tokens>,
      prior: nat -> seq<string>, plans: seq<StmtPlan>, starts: seq<nat>, from: nat, env: Env<V>)
    requires Lawful(sem) && TracksNames(of, chunks, prior) && from <= |chunks|
    requires Explains(of, chunks, prior, plans, starts, from) && SetsAreSafe(exact, plans)
    ensures Agree(exact, RunPlan(sem, of, plans, starts, env), RunChunks(sem, of, chunks, from, env))
    decreases |plans|
  {
    if plans == [] {
      BlanksDoNothing(sem, of, chunks, from, |chunks|, env);
    } else {
      BlanksDoNothing(sem, of, chunks, from, starts[0], env);
      var run := EntryPreservesMeaning(exact, sem, of, chunks, prior, plans[0], starts[0], env);
      if run.Ok? {
        ExplainedPreservesMeaning(exact, sem, of, chunks, prior, plans[1..], starts[1..],
            starts[0] + Size(plans[0]), run.value);
      }
    }
  }

  /**
    Main theorem: if the sets of the plan are safe, the plan has the meaning of
    the chunk list, failures included when `exact`.
   */
  lemma PlanPreservesMeaning<V(!new), E(!new)>(exact: bool, sem: Semantics<V, E>, of: Classifier, chunks: seq<Tokens>,
                                               starts: seq<nat>, env: Env<V>)
    requires Lawful(sem)
    requires Explains(of, chunks, NamesBefore(of, chunks), Plan(of, chunks, 0, []), starts, 0)
    requires SetsAreSafe(exact, Plan(of, chunks, 0, []))
    ensures Agree(exact, RunPlan(sem, of, Plan(of, chunks, 0, []), starts, env), RunChunks(sem, of, chunks, 0, env))
  {
    NamesBeforeTracks(of, chunks);
    ExplainedPreservesMeaning(exact, sem, of, chunks, NamesBefore(of, chunks), Plan(of, chunks, 0, []), starts, 0, env);
  }

  // ------------------------------------------------------------------
  // Safe sets are needed
  // ------------------------------------------------------------------

  /** Everything succeeds but what follows the operand at place `p`, an annotation of its name included. */
  function Halting(p: nat): Semantics<int, int> {
    Semantics((at, t, env) => Ok(0), (at, v) => Ok(0), (at, v, t, env) => if at == p then Err(0) else Ok(0),
              (at, t, v) => if at == p && t != [] then Err(0) else Ok(v), (at, t, env) => Ok(env))
  }

  /** The operand at place `p` leaves the block if it can, and the effect at place `q` fails. */
  ghost function Crossing(p: nat, q: nat): Semantics<int, int> {
    Semantics((at, t, env) => if at == p && MayExit(t) then Err(p) else Ok(0),
              (at, v) => if at == q then Err(q) else Ok(0),
              (at, v, t, env) => Ok(0), (at, t, v) => Ok(v), (at, t, env) => Ok(env))
  }

  lemma BothAreLawful(p: nat, q: nat)
    ensures Lawful(Halting(p)) && Lawful(Crossing(p, q))
  {
  }

  /** Chunk by chunk, a bind at `p` that is not movable fails. */
  lemma {:induction false} ChunksHalt(of: Classifier, chunks: seq<Tokens>, i: nat, p: nat, env: Env<int>)
    requires i <= p < |chunks| && of(chunks[p]).Bind? && !Movable(of(chunks[p]).step)
    ensures RunChunks(Halting(p), of, chunks, i, env).Err?
    decreases p - i
  {
    if i < p {
      var next := RunChunk(Halting(p), of, i, chunks[i], env);
      assert next.Ok?;
      ChunksHalt(of, chunks, i + 1, p, next.value);
    }
  }

  lemma {:induction false} JoinNeverHalts(p: nat, at: nat, steps: seq<BindStep>, entry: Env<int>)
    ensures PrepareAll(Halting(p), at, steps, entry).Ok?
    decreases |steps|
  {
    if steps != [] {
      JoinNeverHalts(p, at + 1, steps[1..], entry);
    }
  }

  lemma {:induction false} EffectsNeverHalt(p: nat, at: nat, effects: seq<int>)
    ensures PerformAll(Halting(p), at, effects).Ok?
    decreases |effects|
  {
    if effects != [] {
      EffectsNeverHalt(p, at + 1, effects[1..]);
    }
  }

  /** No sequential entry stands at place `p`. */
  ghost predicate NotSequentialAt(plans: seq<StmtPlan>, starts: seq<nat>, p: nat)
    requires |starts| == |plans|
  {
    forall k :: 0 <= k < |plans| && plans[k].Sequential? ==> starts[k] != p
  }

  lemma {:induction false} PlanNeverHalts(of: Classifier, plans: seq<StmtPlan>, starts: seq<nat>, p: nat, env: Env<int>)
    requires |starts| == |plans| && NotSequentialAt(plans, starts, p)
    ensures RunPlan(Halting(p), of, plans, starts, env).Ok?
    decreases |plans|
  {
    if plans != [] {
      if plans[0].ParallelSet? {
        JoinNeverHalts(p, starts[0], plans[0].steps, env);
        EffectsNeverHalt(p, starts[0], PrepareAll(Halting(p), starts[0], plans[0].steps, env).value);
      }
      var next := RunEntry(Halting(p), of, plans[0], starts[0], env);
      PlanNeverHalts(of, plans[1..], starts[1..], p, next.value);
    }
  }

  /** The places of two entries do not overlap. */
  lemma {:induction false} EntriesAreApart(of: Classifier, chunks: seq<Tokens>, prior: nat -> seq<string>,
                                           plans: seq<StmtPlan>,
                                           starts: seq<nat>, from: nat, k: nat, l: nat)
    requires Explains(of, chunks, prior, plans, starts, from) && k < l < |plans|
    ensures starts[k] + Size(plans[k]) <= starts[l]
  {
    if k > 0 {
      EntriesAreApart(of, chunks, prior, plans[1..], starts[1..], starts[0] + Size(plans[0]), k - 1, l - 1);
    } else {
      EntryIsJustified(of, chunks, prior, plans[1..], starts[1..], starts[0] + Size(plans[0]), l - 1);
    }
  }

  lemma SetPlacesAreItsOwn(of: Classifier, chunks: seq<Tokens>, prior: nat -> seq<string>, plans: seq<StmtPlan>,
                           starts: seq<nat>, k: nat, p: nat)
    requires Explains(of, chunks, prior, plans, starts, 0) && k < |plans| && plans[k].ParallelSet?
    requires starts[k] <= p < starts[k] + |plans[k].steps|
    ensures NotSequentialAt(plans, starts, p)
  {
    forall l | 0 <= l < |plans| && plans[l].Sequential?
      ensures starts[l] != p
    {
      if l < k {
        EntriesAreApart(of, chunks, prior, plans, starts, 0, l, k);
      } else if k < l {
        EntriesAreApart(of, chunks, prior, plans, starts, 0, k, l);
      }
    }
  }

  /** A set with a bind that is not movable: the chunks fail where the plan succeeds. */
  lemma UnmovableDiffers(of: Classifier, chunks: seq<Tokens>, prior: nat -> seq<string>, plans: seq<StmtPlan>,
                        starts: seq<nat>, k: nat, m: nat)
    requires Explains(of, chunks, prior, plans, starts, 0) && k < |plans| && plans[k].ParallelSet?
    requires m < |plans[k].steps| && !Movable(plans[k].steps[m])
    ensures var sem := Halting(starts[k] + m);
            Lawful(sem) && RunPlan(sem, of, plans, starts, map[]).Ok? && RunChunks(sem, of, chunks, 0, map[]).Err?
  {
    var p := starts[k] + m;
    EntryIsJustified(of, chunks, prior, plans, starts, 0, k);
    assert of(chunks[p]) == Bind(plans[k].steps[m]);
    BothAreLawful(p, p);
    SetPlacesAreItsOwn(of, chunks, prior, plans, starts, k, p);
    PlanNeverHalts(of, plans, starts, p, map[]);
    ChunksHalt(of, chunks, 0, p, map[]);
  }

  /** Chunk by chunk, the effect at `q` fails before place `p` is reached. */
  lemma {:induction false} ChunksCross(of: Classifier, chunks: seq<Tokens>, i: nat, p: nat, q: nat, env: Env<int>)
    requires i <= q < p < |chunks| && of(chunks[q]).Bind?
    ensures RunChunks(Crossing(p, q), of, chunks, i, env) == Err(q)
    decreases q - i
  {
    if i < q {
      var next := RunChunk(Crossing(p, q), of, i, chunks[i], env);
      assert next.Ok?;
      ChunksCross(of, chunks, i + 1, p, q, next.value);
    }
  }

  /** The set evaluates the operand at `p` before it runs any effect. */
  lemma {:induction false} JoinCrosses(p: nat, q: nat, at: nat, steps: seq<BindStep>, entry: Env<int>)
    requires at <= p < at + |steps| && MayExit(steps[p - at].operand)
    ensures PrepareAll(Crossing(p, q), at, steps, entry) == Err(p)
    decreases |steps|
  {
    if at < p {
      JoinCrosses(p, q, at + 1, steps[1..], entry);
    }
  }

  lemma {:induction false} JoinPasses(p: nat, q: nat, at: nat, steps: seq<BindStep>, entry: Env<int>)
    requires at + |steps| <= p
    ensures PrepareAll(Crossing(p, q), at, steps, entry).Ok?
    decreases |steps|
  {
    if steps != [] {
      JoinPasses(p, q, at + 1, steps[1..], entry);
    }
  }

  lemma {:induction false} EffectsPass(p: nat, q: nat, at: nat, effects: seq<int>)
    requires at + |effects| <= q
    ensures PerformAll(Crossing(p, q), at, effects).Ok?
    decreases |effects|
  {
    if effects != [] {
      EffectsPass(p, q, at + 1, effects[1..]);
    }
  }

  /** The plan succeeds up to entry `k` and fails there with the error of place `p`. */
  lemma {:induction false} PlanCrosses(of: Classifier, chunks: seq<Tokens>, prior: nat -> seq<string>,
                                       plans: seq<StmtPlan>, starts: seq<nat>,
                                       from: nat, k: nat, p: nat, env: Env<int>)
    requires Explains(of, chunks, prior, plans, starts, from) && k < |plans| && plans[k].ParallelSet?
    requires starts[k] < p < starts[k] + |plans[k].steps| && MayExit(plans[k].steps[p - starts[k]].operand)
    ensures RunPlan(Crossing(p, starts[k]), of, plans, starts, env) == Err(p)
    decreases |plans|
  {
    var q := starts[k];
    if k == 0 {
      JoinCrosses(p, q, q, plans[0].steps, env);
    } else {
      EntriesAreApart(of, chunks, prior, plans, starts, from, 0, k);
      if plans[0].ParallelSet? {
        JoinPasses(p, q, starts[0], plans[0].steps, env);
        EffectsPass(p, q, starts[0], PrepareAll(Crossing(p, q), starts[0], plans[0].steps, env).value);
      }
      var next := RunEntry(Crossing(p, q), of, plans[0], starts[0], env);
      assert next.Ok?;
      PlanCrosses(of, chunks, prior, plans[1..], starts[1..], starts[0] + Size(plans[0]), k - 1, p, next.value);
    }
  }

  /** A set whose member `m` may exit after the first: the plan and the chunks fail with different errors. */
  lemma EarlyExitDiffers(of: Classifier, chunks: seq<Tokens>, prior: nat -> seq<string>, plans: seq<StmtPlan>,
                         starts: seq<nat>, k: nat, m: nat)
    requires Explains(of, chunks, prior, plans, starts, 0) && k < |plans| && plans[k].ParallelSet?
    requires 1 <= m < |plans[k].steps| && MayExit(plans[k].steps[m].operand)
    ensures var sem := Crossing(starts[k] + m, starts[k]);
            && Lawful(sem)
            && RunPlan(sem, of, plans, starts, map[]) == Err(starts[k] + m)
            && RunChunks(sem, of, chunks, 0, map[]) == Err(starts[k])
  {
    var p, q := starts[k] + m, starts[k];
    EntryIsJustified(of, chunks, prior, plans, starts, 0, k);
    assert of(chunks[q + 0]) == Bind(plans[k].steps[0]) && of(chunks[q + m]) == Bind(plans[k].steps[m]);
    BothAreLawful(p, q);
    PlanCrosses(of, chunks, prior, plans, starts, 0, k, p, map[]);
    ChunksCross(of, chunks, 0, p, q, map[]);
  }

  /** The code of the plan compiles, and agrees with the chunks under every lawful semantics. */
  ghost predicate AlwaysAgree(exact: bool, of: Classifier, chunks: seq<Tokens>, plans: seq<StmtPlan>, starts: seq<nat>)
    requires |starts| == |plans|
  {
    && SetsAreDistinct(plans, Wildcard)
    && forall sem: Semantics<int, int>, env: Env<int> :: Lawful(sem) ==>
         Agree(exact, RunPlan(sem, of, plans, starts, env), RunChunks(sem, of, chunks, 0, env))
  }

  lemma UnsafeDiffers(exact: bool, of: Classifier, chunks: seq<Tokens>, prior: nat -> seq<string>, plans: seq<StmtPlan>,
                      starts: seq<nat>, k: nat)
    requires Explains(of, chunks, prior, plans, starts, 0) && k < |plans| && plans[k].ParallelSet?
    requires !SafeSet(exact, plans[k].steps)
    ensures !AlwaysAgree(exact, of, chunks, plans, starts)
  {
    var steps := plans[k].steps;
    if AllMovable(steps) && DistinctNames(steps, Wildcard) {
      var m :| 1 <= m < |steps| && MayExit(steps[m].operand);
      EarlyExitDiffers(of, chunks, prior, plans, starts, k, m);
    } else if !AllMovable(steps) {
      var m :| 0 <= m < |steps| && !Movable(steps[m]);
      UnmovableDiffers(of, chunks, prior, plans, starts, k, m);
    }
  }

  // ------------------------------------------------------------------
  // The condition on the chunks
  // ------------------------------------------------------------------

  /** Chunk `i` shares its block with another chunk, so it lands in a set. */
  ghost predicate HasBlockMate(of: Classifier, chunks: seq<Tokens>, prior: nat -> seq<string>, i: nat)
    requires i < |chunks|
  {
    && Free(of, chunks, prior, i)
    && (PlaceInBlock(of, chunks, prior, i) > 0 || (i + 1 < |chunks| && Free(of, chunks, prior, i + 1)))
  }

  /**
    No block binds a name twice, `_` aside; every bind with a block mate has a whole
    operand and no annotation and, unless it is first in its block, cannot exit.
   */
  ghost predicate ChunksAreSafe(exact: bool, of: Classifier, chunks: seq<Tokens>, prior: nat -> seq<string>) {
    && NoClash(of, chunks, prior, Wildcard)
    && forall i {:trigger ChunkIsSafe(exact, of, chunks, prior, i)} :: 0 <= i < |chunks| ==>
         ChunkIsSafe(exact, of, chunks, prior, i)
  }

  ghost predicate ChunkIsSafe(exact: bool, of: Classifier, chunks: seq<Tokens>, prior: nat -> seq<string>, i: nat)
    requires i < |chunks|
  {
    HasBlockMate(of, chunks, prior, i) ==>
      && Movable(of(chunks[i]).step)
      && (exact && PlaceInBlock(of, chunks, prior, i) > 0 ==> !MayExit(of(chunks[i]).step.operand))
  }

  /** A chunk with a block mate is the member of a set that has its place. */
  lemma BlockMateIsMember(of: Classifier, chunks: seq<Tokens>, prior: nat -> seq<string>, plans: seq<StmtPlan>,
                          starts: seq<nat>, i: nat)
    returns (k: nat, m: nat)
    requires Explains(of, chunks, prior, plans, starts, 0) && i < |chunks| && HasBlockMate(of, chunks, prior, i)
    ensures k < |plans| && plans[k].ParallelSet? && m < |plans[k].steps|
    ensures of(chunks[i]) == Bind(plans[k].steps[m]) && PlaceInBlock(of, chunks, prior, i) == m
  {
    if PlaceInBlock(of, chunks, prior, i) > 0 {
      k := BlockMatesShareASet(of, chunks, prior, plans, starts, i - 1, i);
    } else {
      PlaceAfter(FreeBefore(of, chunks, prior, i), 1);
      k := BlockMatesShareASet(of, chunks, prior, plans, starts, i, i + 1);
    }
    m := i - starts[k];
    assert IsAtPlace(of, chunks, prior, plans[k].steps[m], starts[k] + m, m);
  }

  /** The members of a set have block mates. */
  lemma MembersHaveBlockMates(of: Classifier, chunks: seq<Tokens>, prior: nat -> seq<string>, steps: seq<BindStep>,
                              s: nat, m: nat)
    requires IsBlock(of, chunks, prior, steps, s) && |steps| >= 2 && m < |steps|
    ensures IsAtPlace(of, chunks, prior, steps[m], s + m, m) && HasBlockMate(of, chunks, prior, s + m)
  {
    assert IsAtPlace(of, chunks, prior, steps[m], s + m, m);
    assert IsAtPlace(of, chunks, prior, steps[1], s + 1, 1);
  }

  /** The sets of a plan are safe exactly when the chunks are. */
  lemma SetsAreSafeIff(exact: bool, of: Classifier, chunks: seq<Tokens>, prior: nat -> seq<string>,
                       plans: seq<StmtPlan>, starts: seq<nat>)
    requires Explains(of, chunks, prior, plans, starts, 0)
    ensures SetsAreSafe(exact, plans) <==> ChunksAreSafe(exact, of, chunks, prior)
  {
    SetsAreDistinctIff(of, chunks, prior, Wildcard, plans, starts);
    if SetsAreSafe(exact, plans) {
      forall i | 0 <= i < |chunks|
        ensures ChunkIsSafe(exact, of, chunks, prior, i)
      {
        if HasBlockMate(of, chunks, prior, i) {
          var k, m := BlockMateIsMember(of, chunks, prior, plans, starts, i);
          assert SafeSet(exact, plans[k].steps);
        }
      }
    }
    if ChunksAreSafe(exact, of, chunks, prior) {
      forall k | 0 <= k < |plans| && plans[k].ParallelSet?
        ensures SafeSet(exact, plans[k].steps)
      {
        SetIsBlock(of, chunks, prior, plans, starts, k);
        EntryIsJustified(of, chunks, prior, plans, starts, 0, k);
        SafeBlock(exact, of, chunks, prior, plans[k].steps, starts[k]);
      }
    }
  }

  lemma SafeBlock(exact: bool, of: Classifier, chunks: seq<Tokens>, prior: nat -> seq<string>, steps: seq<BindStep>,
                  s: nat)
    requires ChunksAreSafe(exact, of, chunks, prior) && IsBlock(of, chunks, prior, steps, s) && |steps| >= 2
    ensures SafeSet(exact, steps)
  {
    DistinctBlock(of, chunks, prior, Wildcard, steps, s);
    forall m | 0 <= m < |steps|
      ensures Movable(steps[m]) && (exact && m > 0 ==> !MayExit(steps[m].operand))
    {
      MembersHaveBlockMates(of, chunks, prior, steps, s, m);
      assert ChunkIsSafe(exact, of, chunks, prior, s + m);
    }
  }

  /**
    Main theorem: the plan compiles and has the meaning of the chunk list under
    every lawful semantics if and only if the chunks are safe, with equal failures
    (`exact`) or with equal environments on success.
   */
  lemma PlanPreservesMeaningIff(exact: bool, of: Classifier, chunks: seq<Tokens>, starts: seq<nat>)
    requires Explains(of, chunks, NamesBefore(of, chunks), Plan(of, chunks, 0, []), starts, 0)
    ensures ChunksAreSafe(exact, of, chunks, NamesBefore(of, chunks)) <==>
            AlwaysAgree(exact, of, chunks, Plan(of, chunks, 0, []), starts)
  {
    var plans := Plan(of, chunks, 0, []);
    SetsAreSafeIff(exact, of, chunks, NamesBefore(of, chunks), plans, starts);
    if SetsAreSafe(exact, plans) {
      forall sem: Semantics<int, int>, env: Env<int> | Lawful(sem)
        ensures Agree(exact, RunPlan(sem, of, plans, starts, env), RunChunks(sem, of, chunks, 0, env))
      {
        PlanPreservesMeaning(exact, sem, of, chunks, starts, env);
      }
    } else {
      var k :| 0 <= k < |plans| && plans[k].ParallelSet? && !SafeSet(exact, plans[k].steps);
      UnsafeDiffers(exact, of, chunks, NamesBefore(of, chunks), plans, starts, k);
    }
  }

  // ------------------------------------------------------------------
  // The condition on one set
  // ------------------------------------------------------------------

  lemma {:induction false} StepsHalt(p: nat, at: nat, steps: seq<BindStep>, env: Env<int>)
    requires at <= p < at + |steps| && !Movable(steps[p - at])
    ensures RunSteps(Halting(p), at, steps, env).Err?
    decreases |steps|
  {
    if at < p {
      StepsHalt(p, at + 1, steps[1..], RunStep(Halting(p), at, steps[0], env).value);
    }
  }

  /** The code of the set compiles, and agrees with its members one by one under every lawful semantics. */
  ghost predicate SetAlwaysAgrees(exact: bool, steps: seq<BindStep>) {
    && DistinctNames(steps, Wildcard)
    && forall sem: Semantics<int, int>, at: nat, env: Env<int> :: Lawful(sem) ==>
         Agree(exact, RunSet(sem, at, steps, env), RunSteps(sem, at, steps, env))
  }

  /** A set of independent binds compiles and keeps the meaning under every lawful semantics exactly if it is safe. */
  lemma SetPreservesMeaningIff(exact: bool, steps: seq<BindStep>)
    requires Independent(steps)
    ensures SafeSet(exact, steps) <==> SetAlwaysAgrees(exact, steps)
  {
    if SafeSet(exact, steps) {
      forall sem: Semantics<int, int>, at: nat, env: Env<int> | Lawful(sem)
        ensures Agree(exact, RunSet(sem, at, steps, env), RunSteps(sem, at, steps, env))
      {
        SetPreservesMeaning(exact, sem, at, steps, env);
      }
    } else if AllMovable(steps) && DistinctNames(steps, Wildcard) {
      var m :| 1 <= m < |steps| && MayExit(steps[m].operand);
      SetCrosses(steps, m);
    } else if !AllMovable(steps) {
      var m :| 0 <= m < |steps| && !Movable(steps[m]);
      SetHalts(steps, m);
    }
  }

  lemma SetCrosses(steps: seq<BindStep>, m: nat)
    requires 1 <= m < |steps| && MayExit(steps[m].operand)
    ensures !SetAlwaysAgrees(true, steps)
  {
    BothAreLawful(m, 0);
    JoinCrosses(m, 0, 0, steps, map[]);
    assert RunSet(Crossing(m, 0), 0, steps, map[]) == Err(m);
    assert RunSteps(Crossing(m, 0), 0, steps, map[]) == Err(0);
  }

  lemma SetHalts(steps: seq<BindStep>, m: nat)
    requires m < |steps| && !Movable(steps[m])
    ensures !SetAlwaysAgrees(true, steps) && !SetAlwaysAgrees(false, steps)
  {
    BothAreLawful(m, m);
    JoinNeverHalts(m, 0, steps, map[]);
    EffectsNeverHalt(m, 0, PrepareAll(Halting(m), 0, steps, map[]).value);
    StepsHalt(m, 0, steps, map[]);
    assert RunSet(Halting(m), 0, steps, map[]).Ok? && RunSteps(Halting(m), 0, steps, map[]).Err?;
  }
}
