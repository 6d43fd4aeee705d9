/**
  The shape of every plan: which chunks go where, the sizes of parallel sets,
  what their members may mention, and that no set could have been larger.
 */
module PlanShapes {
  import opened EffectGraph

  /** The names bound by the recognised binds among the first `i` chunks. */
  ghost function BoundBefore(of: Classifier, chunks: seq<Tokens>, i: nat): seq<string>
    requires i <= |chunks|
  {
    if i == 0 then []
    else BoundBefore(of, chunks, i - 1) + (if of(chunks[i - 1]).Bind? then [of(chunks[i - 1]).step.name] else [])
  }

  /** `prior(i)` are the names bound before chunk `i`. */
  ghost predicate TracksNames(of: Classifier, chunks: seq<Tokens>, prior: nat -> seq<string>) {
    forall i {:trigger NextNames(of, chunks, prior, i)} :: 0 <= i < |chunks| ==> NextNames(of, chunks, prior, i)
  }

  ghost predicate NextNames(of: Classifier, chunks: seq<Tokens>, prior: nat -> seq<string>, i: nat)
    requires i < |chunks|
  {
    prior(i + 1) == prior(i) + (if of(chunks[i]).Bind? then [of(chunks[i]).step.name] else [])
  }

  ghost function NamesBefore(of: Classifier, chunks: seq<Tokens>): nat -> seq<string> {
    (i: nat) => if i <= |chunks| then BoundBefore(of, chunks, i) else []
  }

  lemma NamesBeforeTracks(of: Classifier, chunks: seq<Tokens>)
    ensures TracksNames(of, chunks, NamesBefore(of, chunks))
  {
  }

  /** The most effects that the runtime joins at once. */
  const LargestJoin: nat := 4

  /** The operand uses one of these names, at whatever depth it stands. */
  ghost predicate Uses(step: BindStep, names: seq<string>) {
    exists n :: n in names && Occurs(step.operand, Ident(n))
  }

  /** A chunk that may be moved into a group: a bind that uses none of the names bound before it. */
  ghost predicate MayJoin(kind: Kind, names: seq<string>) {
    kind.Bind? && !Uses(kind.step, names)
  }

  /** The planner's scan for dependencies is exact. */
  lemma DependsIff(step: BindStep, names: seq<string>)
    ensures DependsOn(step, names) <==> Uses(step, names)
  {
    forall n
      ensures Mentions(step.operand, n) <==> Occurs(step.operand, Ident(n))
    {
      MentionsIff(step.operand, n);
    }
  }

  lemma AbsorbableIff(kind: Kind, names: seq<string>)
    ensures Absorbable(kind, names) <==> MayJoin(kind, names)
  {
    if kind.Bind? {
      DependsIff(kind.step, names);
    }
  }

  ghost predicate StopsAt(of: Classifier, chunks: seq<Tokens>, prior: nat -> seq<string>, e: nat)
    requires e <= |chunks|
  {
    e == |chunks| || !MayJoin(of(chunks[e]), prior(e))
  }

  /** `steps` are the binds of the chunks from `s` on, and none mentions a name bound by any earlier chunk. */
  ghost predicate FreeRun(of: Classifier, chunks: seq<Tokens>, prior: nat -> seq<string>, s: nat,
                          steps: seq<BindStep>) {
    && s + |steps| <= |chunks|
    && forall m {:trigger steps[m]} :: 0 <= m < |steps| ==>
         of(chunks[s + m]) == Bind(steps[m]) && !Uses(steps[m], prior(s + m))
  }

  function Size(plan: StmtPlan): nat {
    match plan case Sequential(_) => 1 case ParallelSet(steps) => |steps|
  }

  /** The plan entry that starts with chunk `s` is the only one the rules allow there. */
  ghost predicate Justified(of: Classifier, chunks: seq<Tokens>, prior: nat -> seq<string>, plan: StmtPlan, s: nat) {
    && s < |chunks|
    && match plan
       case Sequential(chunk) =>
         && chunk == chunks[s]
         && !of(chunk).Blank?
         && (MayJoin(of(chunk), prior(s)) ==> StopsAt(of, chunks, prior, s + 1))
       case ParallelSet(steps) =>
         && 2 <= |steps| <= LargestJoin
         && FreeRun(of, chunks, prior, s, steps)
         && (|steps| < LargestJoin ==> StopsAt(of, chunks, prior, s + |steps|))
  }

  ghost predicate BlankBetween(of: Classifier, chunks: seq<Tokens>, m: nat, n: nat)
    requires n <= |chunks|
  {
    forall i :: m <= i < n ==> of(chunks[i]).Blank?
  }

  /** The entries lie one after the other, each justified where it starts, with only blank chunks between them. */
  ghost predicate Explains(of: Classifier, chunks: seq<Tokens>, prior: nat -> seq<string>, plans: seq<StmtPlan>,
                           starts: seq<nat>, from: nat)
    decreases |plans|
  {
    && |starts| == |plans|
    && if plans == [] then BlankBetween(of, chunks, from, |chunks|)
       else
         && from <= starts[0] < |chunks|
         && BlankBetween(of, chunks, from, starts[0])
         && Justified(of, chunks, prior, plans[0], starts[0])
         && Explains(of, chunks, prior, plans[1..], starts[1..], starts[0] + Size(plans[0]))
  }

  lemma {:induction false} GrowShape(of: Classifier, chunks: seq<Tokens>, prior: nat -> seq<string>, s: nat, j: nat,
                                     group: seq<BindStep>, bound: seq<string>)
    requires TracksNames(of, chunks, prior)
    requires j == s + |group| && FreeRun(of, chunks, prior, s, group) && |group| <= MaxParallelBinds
    requires bound + Names(group) == prior(j)
    ensures var r := Grow(of, chunks, j, group, bound);
            && FreeRun(of, chunks, prior, s, r)
            && bound + Names(r) == prior(s + |r|)
            && (|r| < MaxParallelBinds ==> StopsAt(of, chunks, prior, s + |r|))
    decreases |chunks| - j
  {
    if j < |chunks| {
      AbsorbableIff(of(chunks[j]), bound + Names(group));
    }
    if |group| < MaxParallelBinds && j < |chunks| && Absorbable(of(chunks[j]), bound + Names(group)) {
      var step := of(chunks[j]).step;
      assert NextNames(of, chunks, prior, j);
      assert bound + Names(group + [step]) == (bound + Names(group)) + [step.name];
      GrowShape(of, chunks, prior, s, j + 1, group + [step], bound);
    }
  }

  /** One iteration: the entry is justified and the names bound are accounted for. */
  lemma HeadShape(of: Classifier, chunks: seq<Tokens>, prior: nat -> seq<string>, i: nat, bound: seq<string>)
    requires TracksNames(of, chunks, prior)
    requires i < |chunks| && bound == prior(i)
    ensures bound + NamesAt(of, chunks, i, bound) == prior(i + UsedAt(of, chunks, i, bound))
    ensures var head := EntriesAt(of, chunks, i, bound);
            if head == [] then of(chunks[i]).Blank? && UsedAt(of, chunks, i, bound) == 1
            else
              && |head| == 1 && Justified(of, chunks, prior, head[0], i)
              && Size(head[0]) == UsedAt(of, chunks, i, bound)
  {
    assert NextNames(of, chunks, prior, i);
    AbsorbableIff(of(chunks[i]), bound);
    if Absorbable(of(chunks[i]), bound) {
      var step := of(chunks[i]).step;
      assert Names([step]) == [step.name];
      GrowShape(of, chunks, prior, i, i + 1, [step], bound);
      var group := GroupAt(of, chunks, i, bound);
      assert |group| < 2 ==> i + |group| == i + 1;
    }
  }

  /** One iteration of the planner, told with the names bound so far. */
  lemma PlanUnfolds(of: Classifier, chunks: seq<Tokens>, prior: nat -> seq<string>,
                    i: nat) returns (head: seq<StmtPlan>, next: nat)
    requires TracksNames(of, chunks, prior) && i < |chunks|
    ensures i < next <= |chunks|
    ensures Plan(of, chunks, i, prior(i)) == head + Plan(of, chunks, next, prior(next))
    ensures if head == [] then of(chunks[i]).Blank? && next == i + 1
            else |head| == 1 && Justified(of, chunks, prior, head[0], i) && i + Size(head[0]) == next
  {
    HeadShape(of, chunks, prior, i, prior(i));
    head, next := EntriesAt(of, chunks, i, prior(i)), i + UsedAt(of, chunks, i, prior(i));
  }

  /** The plan of the chunks from `i` on is explained from there on. */
  lemma {:induction false} PlanIsExplained(of: Classifier, chunks: seq<Tokens>, prior: nat -> seq<string>,
                                           i: nat) returns (starts: seq<nat>)
    requires TracksNames(of, chunks, prior) && i <= |chunks|
    ensures Explains(of, chunks, prior, Plan(of, chunks, i, prior(i)), starts, i)
    decreases |chunks| - i
  {
    if i == |chunks| {
      starts := [];
    } else {
      var head, next := PlanUnfolds(of, chunks, prior, i);
      var rest := PlanIsExplained(of, chunks, prior, next);
      starts := ExplainHead(of, chunks, prior, head, Plan(of, chunks, next, prior(next)), i, next, rest);
    }
  }

  lemma ExplainHead(of: Classifier, chunks: seq<Tokens>, prior: nat -> seq<string>, head: seq<StmtPlan>,
                    tail: seq<StmtPlan>,
                    i: nat, next: nat, rest: seq<nat>)
    returns (starts: seq<nat>)
    requires i < |chunks|
    requires if head == [] then of(chunks[i]).Blank? && next == i + 1
             else |head| == 1 && Justified(of, chunks, prior, head[0], i) && i + Size(head[0]) == next
    requires Explains(of, chunks, prior, tail, rest, next)
    ensures Explains(of, chunks, prior, head + tail, starts, i)
  {
    if head == [] {
      starts := rest;
      assert head + tail == tail;
    } else {
      starts := [i] + rest;
      assert (head + tail)[1..] == tail && starts[1..] == rest;
    }
  }

  /** Every entry of an explained plan is justified at its start. */
  lemma {:induction false} EntryIsJustified(of: Classifier, chunks: seq<Tokens>, prior: nat -> seq<string>,
                                            plans: seq<StmtPlan>, starts: seq<nat>, from: nat, k: nat)
    requires Explains(of, chunks, prior, plans, starts, from) && k < |plans|
    ensures from <= starts[k] && Justified(of, chunks, prior, plans[k], starts[k])
  {
    if k > 0 {
      EntryIsJustified(of, chunks, prior, plans[1..], starts[1..], starts[0] + Size(plans[0]), k - 1);
    }
  }

  /** Every chunk that is not blank lies in an entry. */
  lemma {:induction false} ChunkIsCovered(of: Classifier, chunks: seq<Tokens>, prior: nat -> seq<string>,
                                          plans: seq<StmtPlan>, starts: seq<nat>, from: nat, i: nat)
    returns (k: nat)
    requires Explains(of, chunks, prior, plans, starts, from) && from <= i < |chunks| && !of(chunks[i]).Blank?
    ensures k < |plans| && starts[k] <= i < starts[k] + Size(plans[k])
  {
    if starts[0] <= i < starts[0] + Size(plans[0]) {
      k := 0;
    } else {
      k := ChunkIsCovered(of, chunks, prior, plans[1..], starts[1..], starts[0] + Size(plans[0]), i);
      k := k + 1;
    }
  }

  /** Main theorem: every plan is explained by its chunks. */
  lemma PlanHasShape(of: Classifier, chunks: seq<Tokens>) returns (starts: seq<nat>)
    ensures Explains(of, chunks, NamesBefore(of, chunks), Plan(of, chunks, 0, []), starts, 0)
  {
    NamesBeforeTracks(of, chunks);
    starts := PlanIsExplained(of, chunks, NamesBefore(of, chunks), 0);
  }

  /** `emit_parallel_set` handles two to four members; no plan asks for anything else. */
  lemma EmittedSetsHaveSupportedSizes(of: Classifier, chunks: seq<Tokens>, k: nat)
    requires k < |Plan(of, chunks, 0, [])| && Plan(of, chunks, 0, [])[k].ParallelSet?
    ensures 2 <= |Plan(of, chunks, 0, [])[k].steps| <= 4
  {
    var starts := PlanHasShape(of, chunks);
    EntryIsJustified(of, chunks, NamesBefore(of, chunks), Plan(of, chunks, 0, []), starts, 0, k);
  }

  lemma FreeRunIsBinds(of: Classifier, chunks: seq<Tokens>, prior: nat -> seq<string>, s: nat, steps: seq<BindStep>,
                       i: nat)
    requires FreeRun(of, chunks, prior, s, steps) && s <= i < s + |steps|
    ensures of(chunks[i]).Bind?
  {
    assert of(chunks[s + (i - s)]) == Bind(steps[i - s]);
  }

  /** A serial-marked chunk is planned alone and in place, and no set spans it. */
  lemma SerialChunksStayAlone(isKey: KeyTest, chunks: seq<Tokens>, i: nat) returns (k: nat, starts: seq<nat>)
    requires i < |chunks| && chunks[i] != [] && Serial(chunks[i])
    ensures var plans := Plan(ClassifierFor(isKey), chunks, 0, []);
            && Explains(ClassifierFor(isKey), chunks, NamesBefore(ClassifierFor(isKey), chunks), plans, starts, 0)
            && k < |plans| && starts[k] == i && plans[k] == Sequential(chunks[i])
  {
    var of := ClassifierFor(isKey);
    var plans, prior := Plan(of, chunks, 0, []), NamesBefore(of, chunks);
    starts := PlanHasShape(of, chunks);
    assert of(chunks[i]) == Plain;
    k := ChunkIsCovered(of, chunks, prior, plans, starts, 0, i);
    EntryIsJustified(of, chunks, prior, plans, starts, 0, k);
    if plans[k].ParallelSet? {
      FreeRunIsBinds(of, chunks, prior, starts[k], plans[k].steps, i);
    }
  }

  // ------------------------------------------------------------------
  // Which chunks share a set
  // ------------------------------------------------------------------

  /** Chunk `i` is a bind that mentions no name bound before it. */
  ghost predicate Free(of: Classifier, chunks: seq<Tokens>, prior: nat -> seq<string>, i: nat)
    requires i < |chunks|
  {
    MayJoin(of(chunks[i]), prior(i))
  }

  /** How many free chunks stand directly before chunk `i`. */
  ghost function FreeBefore(of: Classifier, chunks: seq<Tokens>, prior: nat -> seq<string>, i: nat): (n: nat)
    requires i <= |chunks|
    ensures n <= i
    ensures forall k :: i - n <= k < i ==> Free(of, chunks, prior, k)
  {
    if i == 0 || !Free(of, chunks, prior, i - 1) then 0 else 1 + FreeBefore(of, chunks, prior, i - 1)
  }

  /** The place of chunk `i` in its block: maximal runs of free chunks are cut into blocks of four. */
  ghost function PlaceInBlock(of: Classifier, chunks: seq<Tokens>, prior: nat -> seq<string>, i: nat): nat
    requires i <= |chunks|
  {
    FreeBefore(of, chunks, prior, i) % LargestJoin
  }

  /** Chunks `i` and `j` are free and lie in one block, `i` first. */
  ghost predicate SameBlock(of: Classifier, chunks: seq<Tokens>, prior: nat -> seq<string>, i: nat, j: nat) {
    i < j < |chunks| && Free(of, chunks, prior, j) && j - i <= PlaceInBlock(of, chunks, prior, j)
  }

  /** A plan entry can only start where a block does. */
  ghost predicate BlockMayStart(of: Classifier, chunks: seq<Tokens>, prior: nat -> seq<string>, i: nat)
    requires i <= |chunks|
  {
    i < |chunks| && Free(of, chunks, prior, i) ==> PlaceInBlock(of, chunks, prior, i) == 0
  }

  lemma {:induction false} FreeRunCounts(of: Classifier, chunks: seq<Tokens>, prior: nat -> seq<string>, s: nat,
                                         steps: seq<BindStep>, m: nat)
    requires FreeRun(of, chunks, prior, s, steps) && m <= |steps|
    ensures FreeBefore(of, chunks, prior, s + m) == FreeBefore(of, chunks, prior, s) + m
    ensures m < |steps| ==> Free(of, chunks, prior, s + m)
  {
    if m > 0 {
      FreeRunCounts(of, chunks, prior, s, steps, m - 1);
      assert of(chunks[s + (m - 1)]) == Bind(steps[m - 1]);
    }
    if m < |steps| {
      assert of(chunks[s + m]) == Bind(steps[m]);
    }
  }

  /** After an entry, the next one may start. */
  lemma EntryEndsBlock(of: Classifier, chunks: seq<Tokens>, prior: nat -> seq<string>, plan: StmtPlan, s: nat)
    requires Justified(of, chunks, prior, plan, s) && BlockMayStart(of, chunks, prior, s)
    ensures s + Size(plan) <= |chunks| && BlockMayStart(of, chunks, prior, s + Size(plan))
  {
    if plan.ParallelSet? {
      var n := |plan.steps|;
      FreeRunCounts(of, chunks, prior, s, plan.steps, 0);
      FreeRunCounts(of, chunks, prior, s, plan.steps, n);
      assert n == LargestJoin ==> (FreeBefore(of, chunks, prior, s) + n) % LargestJoin == 0;
    }
  }

  lemma {:induction false} BlanksEndBlocks(of: Classifier, chunks: seq<Tokens>, prior: nat -> seq<string>, m: nat,
                                           n: nat)
    requires m <= n <= |chunks| && BlankBetween(of, chunks, m, n) && BlockMayStart(of, chunks, prior, m)
    ensures BlockMayStart(of, chunks, prior, n)
  {
    assert m < n ==> of(chunks[n - 1]).Blank?;
  }

  /** Every entry starts where a block may start. */
  lemma {:induction false} EntriesStartBlocks(of: Classifier, chunks: seq<Tokens>, prior: nat -> seq<string>,
                                              plans: seq<StmtPlan>,
                                              starts: seq<nat>, from: nat, k: nat)
    requires Explains(of, chunks, prior, plans, starts, from) && k < |plans|
    requires from <= |chunks| && BlockMayStart(of, chunks, prior, from)
    ensures starts[k] < |chunks| && BlockMayStart(of, chunks, prior, starts[k])
  {
    BlanksEndBlocks(of, chunks, prior, from, starts[0]);
    if k > 0 {
      EntryEndsBlock(of, chunks, prior, plans[0], starts[0]);
      EntriesStartBlocks(of, chunks, prior, plans[1..], starts[1..], starts[0] + Size(plans[0]), k - 1);
    }
  }

  /** The steps are the chunks from `s` on, at places 0, 1, ... of one block. */
  ghost predicate IsBlock(of: Classifier, chunks: seq<Tokens>, prior: nat -> seq<string>, steps: seq<BindStep>,
                          s: nat) {
    && s + |steps| <= |chunks|
    && forall m {:trigger steps[m]} :: 0 <= m < |steps| ==>
         IsAtPlace(of, chunks, prior, steps[m], s + m, m)
  }

  ghost predicate IsAtPlace(of: Classifier, chunks: seq<Tokens>, prior: nat -> seq<string>, step: BindStep, i: nat,
                            m: nat)
    requires i < |chunks|
  {
    of(chunks[i]) == Bind(step) && Free(of, chunks, prior, i) && PlaceInBlock(of, chunks, prior, i) == m
  }

  lemma FreeRunIsBlock(of: Classifier, chunks: seq<Tokens>, prior: nat -> seq<string>, s: nat, steps: seq<BindStep>)
    requires FreeRun(of, chunks, prior, s, steps) && 0 < |steps| <= LargestJoin
    requires BlockMayStart(of, chunks, prior, s)
    ensures IsBlock(of, chunks, prior, steps, s)
  {
    FreeRunCounts(of, chunks, prior, s, steps, 0);
    forall m | 0 <= m < |steps|
      ensures IsAtPlace(of, chunks, prior, steps[m], s + m, m)
    {
      FreeRunCounts(of, chunks, prior, s, steps, m);
      PlaceAfter(FreeBefore(of, chunks, prior, s), m);
    }
  }

  lemma PlaceAfter(n: nat, m: nat)
    requires n % LargestJoin == 0 && m < LargestJoin
    ensures (n + m) % LargestJoin == m
  {
  }

  /** Every set of an explained plan is a block. */
  lemma SetIsBlock(of: Classifier, chunks: seq<Tokens>, prior: nat -> seq<string>, plans: seq<StmtPlan>,
                   starts: seq<nat>, k: nat)
    requires Explains(of, chunks, prior, plans, starts, 0) && k < |plans| && plans[k].ParallelSet?
    ensures IsBlock(of, chunks, prior, plans[k].steps, starts[k])
  {
    EntryIsJustified(of, chunks, prior, plans, starts, 0, k);
    EntriesStartBlocks(of, chunks, prior, plans, starts, 0, k);
    FreeRunIsBlock(of, chunks, prior, starts[k], plans[k].steps);
  }

  /** Two chunks of one block lie in one set. */
  lemma BlockMatesShareASet(of: Classifier, chunks: seq<Tokens>, prior: nat -> seq<string>, plans: seq<StmtPlan>,
                            starts: seq<nat>,
                            i: nat, j: nat)
    returns (k: nat)
    requires Explains(of, chunks, prior, plans, starts, 0) && SameBlock(of, chunks, prior, i, j)
    ensures k < |plans| && plans[k].ParallelSet? && starts[k] <= i && j < starts[k] + |plans[k].steps|
    ensures IsBlock(of, chunks, prior, plans[k].steps, starts[k])
  {
    k := ChunkIsCovered(of, chunks, prior, plans, starts, 0, j);
    EntriesStartBlocks(of, chunks, prior, plans, starts, 0, k);
    if plans[k].ParallelSet? {
      SetIsBlock(of, chunks, prior, plans, starts, k);
      assert plans[k].steps[j - starts[k]] == plans[k].steps[j - starts[k]];
    }
  }

  // ------------------------------------------------------------------
  // Distinct names
  // ------------------------------------------------------------------

  /** No name is bound twice, the exempt ones aside. */
  ghost predicate DistinctNames(steps: seq<BindStep>, exempt: set<string>) {
    forall i, j :: 0 <= i < j < |steps| && steps[i].name !in exempt ==> steps[i].name != steps[j].name
  }

  ghost predicate SetsAreDistinct(plans: seq<StmtPlan>, exempt: set<string>) {
    forall k :: 0 <= k < |plans| && plans[k].ParallelSet? ==> DistinctNames(plans[k].steps, exempt)
  }

  /** Chunks `i` and `j` of one block bind the same name, and it is not exempt. */
  ghost predicate Clash(of: Classifier, chunks: seq<Tokens>, prior: nat -> seq<string>, exempt: set<string>, i: nat,
                        j: nat) {
    && SameBlock(of, chunks, prior, i, j)
    && of(chunks[i]).Bind? && of(chunks[j]).Bind? && of(chunks[i]).step.name == of(chunks[j]).step.name
    && of(chunks[i]).step.name !in exempt
  }

  ghost predicate NoClash(of: Classifier, chunks: seq<Tokens>, prior: nat -> seq<string>, exempt: set<string>) {
    forall i: nat, j: nat :: !Clash(of, chunks, prior, exempt, i, j)
  }

  lemma DistinctBlock(of: Classifier, chunks: seq<Tokens>, prior: nat -> seq<string>, exempt: set<string>,
                      steps: seq<BindStep>, s: nat)
    requires IsBlock(of, chunks, prior, steps, s) && NoClash(of, chunks, prior, exempt)
    ensures DistinctNames(steps, exempt)
  {
    forall i, j | 0 <= i < j < |steps| && steps[i].name !in exempt
      ensures steps[i].name != steps[j].name
    {
      assert !Clash(of, chunks, prior, exempt, s + i, s + j);
    }
  }

  lemma NoClashWithin(of: Classifier, chunks: seq<Tokens>, prior: nat -> seq<string>, exempt: set<string>,
                      plans: seq<StmtPlan>, starts: seq<nat>, i: nat, j: nat)
    requires Explains(of, chunks, prior, plans, starts, 0) && SetsAreDistinct(plans, exempt)
    ensures !Clash(of, chunks, prior, exempt, i, j)
  {
    if SameBlock(of, chunks, prior, i, j) {
      var k := BlockMatesShareASet(of, chunks, prior, plans, starts, i, j);
      var s, steps := starts[k], plans[k].steps;
      assert DistinctNames(steps, exempt);
      assert of(chunks[s + (i - s)]) == Bind(steps[i - s]) && of(chunks[s + (j - s)]) == Bind(steps[j - s]);
      assert steps[i - s].name !in exempt ==> steps[i - s].name != steps[j - s].name;
    }
  }

  /** The names in the sets of an explained plan are distinct exactly when no block binds a name twice. */
  lemma SetsAreDistinctIff(of: Classifier, chunks: seq<Tokens>, prior: nat -> seq<string>, exempt: set<string>,
                           plans: seq<StmtPlan>, starts: seq<nat>)
    requires Explains(of, chunks, prior, plans, starts, 0)
    ensures SetsAreDistinct(plans, exempt) <==> NoClash(of, chunks, prior, exempt)
  {
    if NoClash(of, chunks, prior, exempt) {
      forall k | 0 <= k < |plans| && plans[k].ParallelSet?
        ensures DistinctNames(plans[k].steps, exempt)
      {
        SetIsBlock(of, chunks, prior, plans, starts, k);
        DistinctBlock(of, chunks, prior, exempt, plans[k].steps, starts[k]);
      }
    }
    if SetsAreDistinct(plans, exempt) {
      forall i: nat, j: nat
        ensures !Clash(of, chunks, prior, exempt, i, j)
      {
        NoClashWithin(of, chunks, prior, exempt, plans, starts, i, j);
      }
    }
  }

  /** Main theorem: the names in every set are distinct exactly when no block of the chunk list binds a name twice. */
  lemma SetsBindDistinctNamesIff(of: Classifier, chunks: seq<Tokens>, exempt: set<string>)
    ensures SetsAreDistinct(Plan(of, chunks, 0, []), exempt) <==> NoClash(of, chunks, NamesBefore(of, chunks), exempt)
  {
    var starts := PlanHasShape(of, chunks);
    SetsAreDistinctIff(of, chunks, NamesBefore(of, chunks), exempt, Plan(of, chunks, 0, []), starts);
  }

  /** `let name = ~ f(arguments)` */
  function BindChunk(name: string, f: string, arguments: Tokens): Tokens {
    [Ident("let"), Ident(name), Punct('='), Punct('~'), Ident(f), Group(Parenthesis, arguments)]
  }

  /** Two adjacent binds share a set unless the second mentions the name of the first. */
  lemma TwoBindsShareASet(of: Classifier, first: Tokens, second: Tokens, x: BindStep, y: BindStep)
    requires of(first) == Bind(x) && of(second) == Bind(y) && !Mentions(y.operand, x.name)
    ensures Plan(of, [first, second], 0, []) == [ParallelSet([x, y])]
  {
    var chunks := [first, second];
    assert Names([x]) == [x.name];
    assert !DependsOn(y, [] + Names([x]));
    assert [x] + [y] == [x, y];
    assert Grow(of, chunks, 1, [x], []) == Grow(of, chunks, 2, [x, y], []) == [x, y];
    assert GroupAt(of, chunks, 0, []) == [x, y];
    assert Plan(of, chunks, 2, [] + NamesAt(of, chunks, 0, [])) == [];
  }

  /** A call mentions its function and what its arguments mention. */
  lemma CallMentions(f: string, arguments: Tokens, name: string)
    ensures Mentions([Ident(f), Group(Parenthesis, arguments)], name) <==> f == name || Mentions(arguments, name)
  {
    var call := [Ident(f), Group(Parenthesis, arguments)];
    var rest := [Group(Parenthesis, arguments)];
    assert call[1..] == rest && rest[1..] == [];
    assert Mentions(rest, name) <==> Mentions(arguments, name);
  }

  /** The smallest clash: two adjacent binds of one name are put into one set. */
  lemma RebindingSharesASet(name: string, f: string, g: string)
    requires g != name
    ensures var x, y := BindChunk(name, f, []), BindChunk(name, g, []);
            Plan(ClassifierFor(_ => false), [x, y], 0, []) ==
              [ParallelSet([BindStep(name, [], x[4..]), BindStep(name, [], y[4..])])]
  {
    var x, y := BindChunk(name, f, []), BindChunk(name, g, []);
    CallMentions(g, [], name);
    assert y[4..] == [Ident(g), Group(Parenthesis, [])];
    TwoBindsShareASet(ClassifierFor(_ => false), x, y, BindStep(name, [], x[4..]), BindStep(name, [], y[4..]));
  }

  /**
    The dependency scan does not look into literals: a bind that uses an earlier
    name only inside a format string joins the set of the bind of that name.
   */
  lemma LiteralsHideNames(a: string, b: string, f: string, g: string, text: string)
    requires g != a
    ensures var x, y := BindChunk(a, f, []), BindChunk(b, g, [Literal(text)]);
            Plan(ClassifierFor(_ => false), [x, y], 0, []) ==
              [ParallelSet([BindStep(a, [], x[4..]), BindStep(b, [], y[4..])])]
  {
    var x, y := BindChunk(a, f, []), BindChunk(b, g, [Literal(text)]);
    CallMentions(g, [Literal(text)], a);
    assert [Literal(text)][1..] == [];
    assert y[4..] == [Ident(g), Group(Parenthesis, [Literal(text)])];
    TwoBindsShareASet(ClassifierFor(_ => false), x, y, BindStep(a, [], x[4..]), BindStep(b, [], y[4..]));
  }

  /**
    The scan compares the texts of identifiers: a raw identifier and its plain
    spelling name one variable, but a bind that uses one joins the set of the other.
   */
  lemma RawNamesHide(a: string, b: string, f: string, g: string)
    requires g != "r#" + a
    ensures var x, y := BindChunk("r#" + a, f, []), BindChunk(b, g, [Ident(a)]);
            Plan(ClassifierFor(_ => false), [x, y], 0, []) ==
              [ParallelSet([BindStep("r#" + a, [], x[4..]), BindStep(b, [], y[4..])])]
  {
    var raw := "r#" + a;
    var x, y := BindChunk(raw, f, []), BindChunk(b, g, [Ident(a)]);
    assert |raw| == |a| + 2 && a != raw;
    assert [Ident(a)][1..] == [];
    CallMentions(g, [Ident(a)], raw);
    assert y[4..] == [Ident(g), Group(Parenthesis, [Ident(a)])];
    TwoBindsShareASet(ClassifierFor(_ => false), x, y, BindStep(raw, [], x[4..]), BindStep(b, [], y[4..]));
  }
}
