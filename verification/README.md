# effect-rs: verified models

This project models the self-contained algorithms of the effect-rs workspace in
Dafny and proves what they keep, refine or undo. Code that updates state in place
is modelled by methods and classes with loops, each proved against a
specification function; the theorems are then stated about those functions and
about runs of state machines over them.

| files | what they model |
|---|---|
| `Dag.dfy`, `Capability.dfy` | Kahn's sort with its in-degree table, and the capability planner built on it |
| `EffectGraph.dfy`, `PlanMeaning.dfy`, `PlanShapes.dfy` | the planner of the `effect!` macro, the meaning of its plans, and their shape |
| `SqlJournal.dfy`, `EventStores.dfy` | SQL appends as interleaved atomic steps, and the three event stores side by side |
| `Wrappers.dfy`, `Sorting.dfy`, `KeyOrder.dfy` | options, results, the stable sort and sequences in key order, shared by the other modules |
| `Values.dfy`, `Documents.dfy`, `Paths.dfy`, `JsonPatch.dfy` | nested documents, path syntax and patches |
| `Text.dfy`, `Json.dfy`, `JsonSyntax.dfy`, `JsonGrammar.dfy`, `Codec.dfy`, `Sse.dfy`, `Pretty.dfy` | parsers and printers |
| `Breaker.dfy` | the circuit breaker, with the clock as an input |
| `Saga.dfy`, `Outbox.dfy`, `OutboxRelay.dfy` | rollback of sagas; the outbox table and its relay |

`dafny verify dfyconfig.toml` checks everything.

## Where the code differs from its documentation

The models follow the code. These are the differences that matter, each with a lemma.

- A parallel set differs from its binds one by one in four ways. It takes everything
  after `~` as the operand, where a sequential statement stops at a top-level `,`, `;`,
  `>` or brace group. It drops type annotations (`PlanMeaning.SetsDropAnnotations`). It
  binds all names in one pattern, which does not compile if a name other than `_` occurs
  twice. And it evaluates all operands before it runs any effect, so a nested `~`, a `?`
  or a `return` in a later operand comes before the failure of an earlier effect. The
  plan compiles and ends in the same environment exactly when the binds that share a
  block are whole, without annotation and, `_` aside, of different names, and reports the
  same error exactly when, besides, no bind after the first of its block can exit early
  (`PlanMeaning.PlanPreservesMeaningIff`).
- Nothing keeps two binds of one name out of a set: they share one when they stand in one
  block of free binds (`PlanShapes.SetsBindDistinctNamesIff`, `PlanShapes.RebindingSharesASet`).
- The dependency scan does not look into literals, so a name used only inside a format
  string is no dependency (`PlanShapes.LiteralsHideNames`), and it compares texts, so a
  raw identifier and its plain spelling count as two names (`PlanShapes.RawNamesHide`).
- `set_at_path` says the target must exist; a missing last object field is inserted
  (`Documents.SetInsertsMissingField`, and `Documents.SetSucceedsIff` for the exact condition).
- Patch `remove` prints its parent path with dots and parses it again. It removes what
  the path names, on every document, exactly when the parent can be printed that way or
  append segments keep both paths from removing anything (`JsonPatch.RemoveIsFaithfulIff`).
- JSON Pointers lose an empty first name, because all leading slashes are trimmed
  (`Paths.PointerRoundTripIff`).
- `add` on a readable array index replaces (`JsonPatch.AddIsCreate`), so adding back what
  `remove` took restores only fields and the last elements of arrays
  (`JsonPatch.RemoveThenAddRestoresIff`).
- Two integers printed in a row come back only if the second is negative
  (`Codec.IntPairRoundTripsIff`).
- A JSON `\u` escape is never accepted (`JsonSyntax.UnicodeEscapeFails`).
- The list codec prints the empty list but never parses it (`Codec.EmptyListNeverParses`).
- `fill` does not fill lines: it is one line or one piece per line (`Pretty.FillIsOneLineOrMany`).
- The breaker allows a single probe only to sequential callers; callers that overlap the
  probe are all admitted (`Breaker.SecondProbeAdmittedIff`, `Breaker.OverlappingProbesAllRun`).
- The breaker's branch that reopens below the threshold is dead if each gate and each
  settlement is atomic (`Breaker.SecondReopenIsDead`). Their cells are written one by one,
  and a settlement cut in two brings the branch to life (`Breaker.SplitSettlementsReopenEarly`).
- A failing saga never compensates the failing step itself (`Saga.RestoredIffFailureWasClean`).
- The outbox delivers at least once. Every row goes out at most once as long as no relay
  begins with a row that another relay has taken and not marked; a relay that does, because
  the other still runs or has failed, can deliver it a second time
  (`OutboxRelay.QuietRunsDeliverOnce`, `OutboxRelay.HeldRowsGoOutTwice`).

## Model

| member | source | states |
|---|---|---|
| Dag.BuildTables | crates/id_effect_graph/src/dag.rs:68-82 | in-degrees count incoming edges, repeated edges included, and adjacency lists outgoing edges in order |
| Dag.Relax | crates/id_effect_graph/src/dag.rs:89-100 | one decrement per outgoing edge never underflows, and exactly the nodes that reach zero are queued |
| Dag.VisitNext | crates/id_effect_graph/src/dag.rs:86-101 | one round keeps the schedule invariant and schedules one more node |
| Dag.NewDepth | crates/id_effect_graph/src/dag.rs:89-100 | a node queued when its last predecessor is taken from the front of the queue is one layer deeper than that predecessor |
| Dag.SortExplicit | crates/id_effect_graph/src/dag.rs:68-111 | `Ok` iff no cycle, then a permutation with every edge forward, in which no node lies deeper, by longest path, than a later one; `Err` lists, once each and in node order, the largest set whose members all have a predecessor inside |
| Dag.AcyclicIffUnsupported | crates/id_effect_graph/src/dag.rs:103-110 | a graph is acyclic iff its largest self-supporting set is empty |
| Dag.SupportedHasCycle | crates/id_effect_graph/src/dag.rs:103-110 | the nodes reported on failure contain a cycle, which is produced |
| Dag.UnscheduledIsLargestSupported | crates/id_effect_graph/src/dag.rs:103-110 | when the queue is empty the nodes with positive in-degree are that largest set |
| Dag.Graph.AddNode | crates/id_effect_graph/src/dag.rs:22-28 | a known id is refused and changes nothing; a new one is added, and the ids stay in key order |
| Dag.Graph.AddEdge | crates/id_effect_graph/src/dag.rs:31-48 | unknown endpoints are refused, dependency first; self-edges are accepted and dropped |
| Dag.Graph.Sort | crates/id_effect_graph/src/dag.rs:51-54 | every graph the builder accepts is sorted exactly |
| KeyOrder.LexIff | crates/id_effect_jobs/src/outbox.rs:74 | the order of string keys is the dictionary order |
| Capability.CheckIds | crates/id_effect_graph/src/topological_sort.rs:35-40 | succeeds iff ids are distinct; otherwise blames a repeated id |
| Capability.CheckProviders | crates/id_effect_graph/src/topological_sort.rs:42-52 | succeeds iff capabilities are distinct, with the provider of each; otherwise blames two providers |
| Capability.BuildEdges | crates/id_effect_graph/src/topological_sort.rs:54-70 | succeeds iff every requirement has a provider; otherwise blames an unmet one |
| Capability.EdgesAreNeeds | crates/id_effect_graph/src/topological_sort.rs:54-70 | the edges built are exactly the needs of one node of another, without self-needs |
| Capability.TopologicalSort | crates/id_effect_graph/src/topological_sort.rs:34-73 | `Ok` iff ids and capabilities are distinct, every requirement is provided and needs have no cycle; then a permutation in which providers come first; every error names a real defect |
| EffectGraph.ParseBindStep | crates/id_effect_proc_macro/src/effect_graph.rs:151-209 | the index loop computes the recogniser of binds |
| EffectGraph.BindIff | crates/id_effect_proc_macro/src/effect_graph.rs:151-209 | the recognised chunks are exactly `let name [: type] = ~ operand`, the type without `=` outside its closed angle brackets, whose operand is no capability key; name, annotation and operand are recovered |
| EffectGraph.DepthIsLargestExcess | crates/id_effect_proc_macro/src/transform.rs:400-445 | the angle depth, which ignores a closing bracket too many, is the largest excess of opened brackets at the end of the tokens |
| EffectGraph.ChunkHasSerialAttr | crates/id_effect_proc_macro/src/effect_graph.rs:228-251 | the peeking loop computes the scan for the serial marker |
| EffectGraph.SerialIff | crates/id_effect_proc_macro/src/effect_graph.rs:228-251 | the scan succeeds exactly when `#[effect(serial)]` stands behind nothing but attributes and groups |
| EffectGraph.MarkerIff | crates/id_effect_proc_macro/src/effect_graph.rs:228-251 | of the attributes `f(a)`, in any brackets, only `effect(serial)` is the marker |
| EffectGraph.BlanksVanish | crates/id_effect_proc_macro/src/effect_graph.rs:235-240 | blanks, line feeds and tabulators in the attribute's text do not matter, and nothing else is left out |
| EffectGraph.SerialIsNotABind | crates/id_effect_proc_macro/src/effect_graph.rs:37-45 | a serial-marked chunk is never recognised as a bind, so its name is never recorded |
| EffectGraph.KindIff | crates/id_effect_proc_macro/src/effect_graph.rs:37-58 | a chunk counts as blank iff it is empty, and as a bind iff it is `let name [: type] = ~ operand` or `name ~ operand` and the operand is no capability key |
| EffectGraph.MentionsIff | crates/id_effect_proc_macro/src/effect_graph.rs:217-226 | the dependency scan finds a name iff it stands in the tokens as an identifier, at any depth and in groups of any delimiter |
| EffectGraph.ClassifyChunk | crates/id_effect_proc_macro/src/effect_graph.rs:31-58 | the planner's tests, in its order, give a chunk's kind |
| EffectGraph.GrowGroup | crates/id_effect_proc_macro/src/effect_graph.rs:65-88 | the inner loop grows the greedy group of at most four independent binds |
| EffectGraph.PlanStep | crates/id_effect_proc_macro/src/effect_graph.rs:31-101 | one iteration of the outer loop always advances and leaves the plan still to be made unchanged |
| EffectGraph.PlanStatementChunks | crates/id_effect_proc_macro/src/effect_graph.rs:26-104 | the two nested loops compute the recursive plan |
| PlanMeaning.OperandStopsFirst | crates/id_effect_proc_macro/src/transform.rs:400-445 | a sequential operand stops at the first `,`, `;` or `>` outside angle brackets or at a brace group, and nowhere before |
| PlanMeaning.StepsAreOneByOne | crates/id_effect_proc_macro/src/effect_graph.rs:59-101 | independent binds with whole operands may all be evaluated and run, one by one, in the environment before the first |
| PlanMeaning.TwoPhasesAgree | crates/id_effect_proc_macro/src/effect_graph.rs:107-149 | evaluating all operands before running any effect gives the same values, and the same error if no operand after the first can leave the block early |
| PlanMeaning.SetBindsEach | crates/id_effect_proc_macro/src/effect_graph.rs:107-149 | a set of different names that succeeds binds each name to the value of its own operand and changes no other |
| PlanMeaning.SetsDropAnnotations | crates/id_effect_proc_macro/src/effect_graph.rs:107-149 | a set does the same whatever the annotations of its binds say |
| PlanMeaning.SetPreservesMeaning | crates/id_effect_proc_macro/src/effect_graph.rs:107-149 | a set of independent, whole binds without annotations and of different names ends in the same environment as its binds one by one and fails when they fail; with the same error if no later operand can exit |
| PlanMeaning.SetPreservesMeaningIff | crates/id_effect_proc_macro/src/effect_graph.rs:107-149 | every set of independent binds compiles and agrees with its binds one by one under all lawful semantics if and only if its binds are whole, without annotation and, `_` aside, of different names, and, for equal errors, no later operand can exit |
| PlanMeaning.PlanPreservesMeaning | crates/id_effect_proc_macro/src/effect_graph.rs:26-104 | for every chunk list and every semantics in which evaluating an operand depends only on the identifiers that stand in it and fails only at a nested `~`, `?` or `return`, a plan with safe sets does what the chunks do one by one |
| PlanMeaning.SetsAreSafeIff | crates/id_effect_proc_macro/src/effect_graph.rs:26-104 | the sets of a plan are safe exactly when the chunks are: binds that share a block bind different names, `_` aside, are whole and without annotation and, after the first of the block, cannot exit |
| PlanMeaning.PlanPreservesMeaningIff | crates/id_effect_proc_macro/src/effect_graph.rs:26-104 | for every chunk list, the plan's patterns bind each name once and the plan agrees with the chunks under all lawful semantics if and only if the chunks are safe, once for equal environments on success and once for equal failures too |
| PlanShapes.PlanHasShape | crates/id_effect_proc_macro/src/effect_graph.rs:26-104 | every plan spells the non-empty chunks in order; each set has 2 to 4 binds that mention no earlier bound name, and a smaller set could not absorb the next chunk |
| PlanShapes.DependsIff | crates/id_effect_proc_macro/src/effect_graph.rs:211-215 | a bind depends on earlier names iff one of them stands in its operand |
| PlanShapes.EntryIsJustified | crates/id_effect_proc_macro/src/effect_graph.rs:26-104 | every entry of a plan is the only one the rules allow at its place |
| PlanShapes.ChunkIsCovered | crates/id_effect_proc_macro/src/effect_graph.rs:26-104 | no chunk that is not empty is dropped |
| PlanShapes.EmittedSetsHaveSupportedSizes | crates/id_effect_proc_macro/src/effect_graph.rs:107-149 | the panic for other set sizes is unreachable |
| PlanShapes.SerialChunksStayAlone | crates/id_effect_proc_macro/src/effect_graph.rs:37-45 | a serial-marked chunk is planned alone, unchanged and in place |
| PlanShapes.SetIsBlock | crates/id_effect_proc_macro/src/effect_graph.rs:65-101 | the members of every set are the first chunks of one block, in order, where maximal runs of free binds are cut into blocks of four |
| PlanShapes.BlockMatesShareASet | crates/id_effect_proc_macro/src/effect_graph.rs:65-101 | two binds of one block always land in one set |
| PlanShapes.SetsBindDistinctNamesIff | crates/id_effect_proc_macro/src/effect_graph.rs:65-101 | the names in every set are distinct, any exempt ones aside, exactly when no block of the chunk list binds a name twice |
| PlanShapes.RebindingSharesASet | crates/id_effect_proc_macro/src/effect_graph.rs:65-101 | two adjacent binds of any one name share a set |
| PlanShapes.LiteralsHideNames | crates/id_effect_proc_macro/src/effect_graph.rs:217-226 | a bind that holds an earlier name only inside a literal shares the set of that name's bind, whatever the literal says |
| PlanShapes.RawNamesHide | crates/id_effect_proc_macro/src/effect_graph.rs:217-226 | a bind that uses the plain spelling of an earlier raw name shares the set of that name's bind |
| SqlJournal.InsertOnContiguous | crates/id_effect_events/src/sql_journal.rs:42-64 | on a stream numbered 1..n, an insert at or below n conflicts and changes nothing, and one at n + 1 extends the stream |
| SqlJournal.InsertConflictsIff | crates/id_effect_events/src/sql_journal.rs:42-64 | on every store, an insert conflicts iff its version is taken, then names it and the one before it and changes no row; otherwise the row joins the others in version order; no other stream changes |
| SqlJournal.Backend.InsertRow | crates/id_effect_events/src/sql_journal.rs:42-64 | the in-place insert under the lock computes that insert |
| SqlJournal.Backend.SelectFrom | crates/id_effect_events/src/sql_journal.rs:66-84 | returns the rows at or above a version, in order |
| SqlJournal.Backend.Append | crates/id_effect_events/src/sql_journal.rs:106-136 | with no other writer, appends one unbroken block after the latest version and touches no other stream |
| SqlJournal.StepKeepsInv | crates/id_effect_events/src/sql_journal.rs:106-136 | every atomic step of any writer keeps: streams are 1..n, every row has one writer, every writer owns a prefix of its block |
| SqlJournal.EveryStateIsSound | crates/id_effect_events/src/sql_journal.rs:106-136 | the invariant holds in every state of every interleaving of any number of writers |
| SqlJournal.RowsNeverChange | crates/id_effect_events/src/sql_journal.rs:42-64 | along a run every stream only grows at its end |
| SqlJournal.ReturnedOwnsWholeBlock | crates/id_effect_events/src/sql_journal.rs:106-136 | a successful append owns one unbroken block of versions with its payloads, for ever |
| SqlJournal.UndisturbedAppendReturns | crates/id_effect_events/src/sql_journal.rs:106-136 | after any run, an append that nobody disturbs can go on to return, and owns one block at the end of its stream |
| SqlJournal.FailedLeavesPrefix | crates/id_effect_events/src/sql_journal.rs:122-133 | a conflicting append leaves a proper prefix of its block, and another writer holds the version it lost |
| SqlJournal.LaterAppendsGetLargerVersions | crates/id_effect_events/src/sql_journal.rs:106-136 | an append begun after another has written on the stream gets strictly larger versions |
| SqlJournal.ReadsAreGapFree | crates/id_effect_events/src/sql_journal.rs:138-160 | whatever runs beside it, a read sees the versions from its start on without a gap |
| EventStores.MemoryEventStore.Append | crates/id_effect_events/src/event_store.rs:65-91 | numbers new events from length + 1, returns the entries it stored, event ids included, and extends only its stream |
| EventStores.MemoryEventStore.Read | crates/id_effect_events/src/event_store.rs:93-115 | gives the stored entries, event ids included, from a version on |
| EventStores.RegroupLines | crates/id_effect_events/src/event_store.rs:153-173 | the loop over the log skips blank lines, groups records by stream, and fails on the first undecodable line |
| EventStores.RegroupOfEncoded | crates/id_effect_events/src/event_store.rs:153-173 | regrouping the lines of a log gives every stream its records in log order |
| EventStores.BlankLinesAreSkipped | crates/id_effect_events/src/event_store.rs:158-160 | the log reads the same without its blank lines |
| EventStores.RegroupFailsIff | crates/id_effect_events/src/event_store.rs:161-163 | reading the log fails iff some line that is not blank does not decode |
| Sorting.SortIsStable | crates/id_effect_events/src/event_store.rs:174-176 | the sort puts items in key order, and items with equal keys keep their order |
| Sorting.SortOfSorted | crates/id_effect_events/src/event_store.rs:174-176 | the stable sort leaves items already in key order as they are |
| Text.LinesOfWritten | crates/id_effect_events/src/event_store.rs:153-158 | records written as lines come back as the same lines, if none holds a line feed or ends in a carriage return |
| Text.ReturnedLine | crates/id_effect_events/src/event_store.rs:153-158 | a line that ends in a carriage return and a line feed is read without either |
| Text.UnendedLine | crates/id_effect_events/src/event_store.rs:153-158 | a last line without a line feed is read too |
| EventStores.FileJournal.ReadAll | crates/id_effect_events/src/event_store.rs:153-177 | re-reading the one log gives back every stream in order, and never fails on what the journal wrote |
| EventStores.FileJournal.AppendRecords | crates/id_effect_events/src/event_store.rs:179-190 | each record is written as one more line at the end of the file |
| EventStores.FileJournal.Append | crates/id_effect_events/src/event_store.rs:204-241 | re-reads the file, numbers the events and appends their lines; its stream alone is extended, by the entries returned |
| EventStores.FileJournal.Read | crates/id_effect_events/src/event_store.rs:243-266 | gives the stored entries, event ids included, from a version on |
| EventStores.DecodeRows | crates/id_effect_events/src/sql_journal.rs:146-158 | one undecodable payload fails the whole read; otherwise all rows are decoded in order |
| EventStores.SqlEventJournal.Append | crates/id_effect_events/src/sql_journal.rs:106-136 | numbers new events after the largest version and extends its stream alone, by the entries returned |
| EventStores.SqlEventJournal.Read | crates/id_effect_events/src/sql_journal.rs:138-160 | gives the stored entries, event ids included, from a version on |
| EventStores.ReadBackAppend | crates/id_effect_events/src/event_store.rs:25-42 | reading from just after the old latest version returns exactly what an append returned |
| EventStores.EntriesReadBack | crates/id_effect_events/src/event_store.rs:25-42 | in each store a read from just after the old latest version gives back the very entries an append returned |
| EventStores.AppendInTwo | crates/id_effect_events/src/event_store.rs:25-42 | two appends answer like one append of both batches |
| EventStores.TraceIsWritten | crates/id_effect_events/src/event_store.rs:25-42 | what the stores hold in a run is, stream by stream, what was appended so far |
| EventStores.RunAll | crates/id_effect_events/src/event_store.rs:25-42 | on every sequential run the three stores give the same versions and payloads, those the earlier appends call for, whatever event ids each draws |
| Documents.GetAtSegments | crates/id_effect_optics/src/schema_bridge.rs:18-57 | the loop reads one level per segment and fails at the first missing one |
| Documents.SetIsTopDown | crates/id_effect_optics/src/schema_bridge.rs:87-112 | bottom-up `set` by fetching, reassigning and recursing equals a plain top-down update, failures included |
| Documents.CreateIsTopDown | crates/id_effect_optics/src/schema_bridge.rs:114-143 | bottom-up `create`, which builds missing levels by two recursive calls, equals a plain top-down update on every document and path; an interior append always fails |
| Documents.CreateSucceedsIff | crates/id_effect_optics/src/schema_bridge.rs:114-193 | `create` succeeds iff the first missing level fits where the readable ones end (a field into an object, an index up to the length or an append into an array) and, from there on, only the last segment appends and every index is 0 |
| Documents.CreatedLevels | crates/id_effect_optics/src/schema_bridge.rs:145-149 | after `create` every level on the way is an object exactly where the path goes on with a field, and an array otherwise |
| Documents.CreateAppends | crates/id_effect_optics/src/schema_bridge.rs:176-187 | a path that ends in an append leaves, at its parent, the old array or a new one with the value as its last element |
| Documents.SetLaws | crates/id_effect_optics/src/schema_bridge.rs:87-112 | set-then-get, set of what was read, second set wins, and every path neither above nor below the target reads the same |
| Documents.CreateLaws | crates/id_effect_optics/src/schema_bridge.rs:114-143 | create-then-get on append-free paths, agreement with `set` on readable paths, and the frame |
| Documents.SetSucceedsIff | crates/id_effect_optics/src/schema_bridge.rs:87-112 | `set` succeeds iff the parent is readable and is an object for a field or an array holding the index |
| Documents.SetInsertsMissingField | crates/id_effect_optics/src/schema_bridge.rs:60-72 | a missing last field is inserted although the documentation asks that it exist |
| Documents.AssignLeavesOthers | crates/id_effect_optics/src/schema_bridge.rs:152-193 | writing one level leaves every other segment of that level as it was, except a slot that an append makes readable |
| Documents.SetsCommute | crates/id_effect_optics/src/schema_bridge.rs:87-112 | updates at places neither inside the other commute, failures included |
| Paths.DotRoundTripIff | crates/id_effect_optics/src/path.rs:39-53 | a segment list survives dot printing and parsing iff its names are dot-free and not read as index or append, it is not one empty name, and its first name does not start with a slash |
| Paths.DecodeOfEncode | crates/id_effect_optics/src/path.rs:66-68 | the two-pass decoder inverts the escaping of section 3 of RFC 6901 for every string |
| Paths.PointerRoundTrips | crates/id_effect_optics/src/path.rs:55-64 | printable lists whose first name is not empty come back from their pointer |
| Paths.EmptyFirstNameIsLost | crates/id_effect_optics/src/path.rs:55-64 | an empty first name is lost with the slashes before it |
| Paths.PointerRoundTripIff | crates/id_effect_optics/src/path.rs:55-64 | a segment list comes back from its pointer iff all its segments are printable and its first name is not empty |
| Paths.PrintableIff | crates/id_effect_optics/src/path.rs:70-91 | one segment comes back from its text iff its name is neither a number nor `-` |
| Text.UsizeIff | crates/id_effect_optics/src/path.rs:70-78 | the accepted indices are the digit texts with an optional plus sign up to the largest 64-bit number |
| JsonPatch.AddIsCreate | crates/id_effect_optics/src/json_patch.rs:85-93 | `add` replaces whatever is readable, array elements too, and creates the rest |
| JsonPatch.AddLaws | crates/id_effect_optics/src/json_patch.rs:85-93 | `add` succeeds iff `create` can build there, its value is then read at its path, and other places are unchanged |
| JsonPatch.ReplaceLaws | crates/id_effect_optics/src/json_patch.rs:95-98 | `replace` succeeds iff its path can be read, its value is then read there, and other places are unchanged |
| JsonPatch.RemoveUsesReparsed | crates/id_effect_optics/src/json_patch.rs:100-159 | `remove` removes below the parent path as printed with dots and parsed again |
| JsonPatch.RemoveTakesOut | crates/id_effect_optics/src/json_patch.rs:100-159 | `remove` succeeds iff its last segment can be read below the re-parsed parent; then a field is gone and its neighbours stay, or the elements after an index move up by one, and everything outside that level reads as before |
| JsonPatch.RemoveIsFaithfulIff | crates/id_effect_optics/src/json_patch.rs:100-159 | for every path with a parent, `remove` is top-down removal on all documents iff the parent is dot-printable, the last segment is an append, or appends stand both in the parent and in its re-parsed form |
| JsonPatch.RootIsNeverRemoved | crates/id_effect_optics/src/json_patch.rs:100-107 | `remove` fails on the root |
| JsonPatch.DottedParentRemovesElsewhere | crates/id_effect_optics/src/json_patch.rs:100-159 | a dot in the parent's name makes `remove` go wrong on some document |
| JsonPatch.RemoveThenAddRestoresIff | crates/id_effect_optics/src/json_patch.rs:85-159 | for every readable path whose parent is dot-printable, removing the value and adding it back restores the document iff the path ends in a field or in the last index of its array |
| JsonPatch.MoveIsRemoveAndAdd | crates/id_effect_optics/src/json_patch.rs:161-165 | `move` is removing what was read and adding it at the target, as section 4.4 of RFC 6902 says; it fails if nothing can be read |
| JsonPatch.MoveThereAndBack | crates/id_effect_optics/src/json_patch.rs:161-165 | moving a field to an absent field under an existing object and back restores the document |
| JsonPatch.CopyIsAdd | crates/id_effect_optics/src/json_patch.rs:167-170 | `copy` is adding what is read at the source, as section 4.5 of RFC 6902 says; it fails if nothing can be read |
| JsonPatch.CopyThenRemoveRestores | crates/id_effect_optics/src/json_patch.rs:167-170 | a copy to an absent field reads as its source, and removing it restores the document |
| JsonPatch.TestGuards | crates/id_effect_optics/src/json_patch.rs:172-181 | a `test` lets the operations after it run on the same document iff exactly its value is read at its path |
| JsonPatch.PatchesInTwo | crates/id_effect_optics/src/json_patch.rs:81-83 | a patch list may be cut anywhere; the first failure fails the whole list |
| JsonPatch.ReplacesCommute | crates/id_effect_optics/src/json_patch.rs:95-98 | replacements at places neither inside the other give the same document in either order |
| Json.ParseString | crates/id_effect_parse/src/json.rs:56-100 | the loop over characters reads the string literal that `JsonGrammar.QuotedComesBack` and `JsonGrammar.DocumentIff` pin down |
| Json.ParseNumber | crates/id_effect_parse/src/json.rs:102-130 | the scanning loops read the number literal of the specification |
| Json.Value | crates/id_effect_parse/src/json.rs:23-37 | on success the rest is strictly shorter, the measure of the mutual recursion |
| Json.ParseValue | crates/id_effect_parse/src/json.rs:23-37 | the dispatcher computes the specified value and terminates |
| Json.ParseArray | crates/id_effect_parse/src/json.rs:132-153 | the loop computes the specified array |
| Json.ParseObject | crates/id_effect_parse/src/json.rs:155-185 | the loop computes the specified object, later duplicate keys winning |
| Json.ParseJsonDocument | crates/id_effect_parse/src/json.rs:14-21 | one value and nothing but white space after it |
| JsonGrammar.ValueComplete | crates/id_effect_parse/src/json.rs:23-185 | the text of every allowed syntax tree, with any white space between tokens, parses to what the tree denotes and leaves exactly what follows |
| JsonGrammar.ValueSound | crates/id_effect_parse/src/json.rs:23-185 | every accepted text is white space and the text of an allowed tree that denotes the result |
| JsonGrammar.DocumentIff | crates/id_effect_parse/src/json.rs:14-21 | a document parses to a value iff some allowed tree spells the text and denotes the value |
| JsonGrammar.QuotedComesBack | crates/id_effect_parse/src/json.rs:56-100 | every string, written with `\b \f \n \r \t \" \\` where they apply, is read back from its quoted form, whatever follows |
| JsonGrammar.OtherEscapesAreThemselves | crates/id_effect_parse/src/json.rs:65-88 | after a backslash every other character but `u` stands for itself |
| JsonSyntax.IntComplete | crates/id_effect_parse/src/json.rs:102-130 | every integer text in the 64-bit range, leading zeros included, reads as its value |
| JsonSyntax.UnicodeEscapeFails | crates/id_effect_parse/src/json.rs:73-83 | a `\u` escape is never accepted |
| JsonSyntax.HexIff | crates/id_effect_parse/src/json.rs:75-77 | the hexadecimal digits are the sixteen values in upper and lower case |
| JsonSyntax.HexDigitsRead | crates/id_effect_parse/src/json.rs:73-83 | the digits of a `\u` escape would be read as their code; only the `u` read in front of them makes it fail |
| Text.SpacesAreListed | crates/id_effect_parse/src/json.rs:8 | white space is exactly the twenty-five characters that Unicode lists |
| Codec.RunSepBy | crates/id_effect_parse/src/parser.rs:282-307 | the loop computes the specified list and stops, since each separator consumes |
| Codec.SepByIff | crates/id_effect_parse/src/parser.rs:282-307 | a list is read iff an item comes first and an item follows every separator; a separator without an item fails the whole list |
| Codec.RunQuoted | crates/id_effect_parse/src/codec.rs:63-95 | the character loop computes the specified quoted string |
| Codec.QuotedIff | crates/id_effect_parse/src/codec.rs:63-95 | the quoted strings accepted are exactly a quote, a text without bare quotes in which escapes stand for one character each, and a quote; whatever follows is left |
| Codec.OtherEscapesAreThemselves | crates/id_effect_parse/src/codec.rs:63-95 | after a backslash every character but `n` and `t` stands for itself |
| Codec.RunSignedInt | crates/id_effect_parse/src/parser.rs:172-195 | the digit loop computes the specified 64-bit integer |
| Codec.SignedIntIff | crates/id_effect_parse/src/parser.rs:172-195 | the integer parser succeeds iff an optional sign and digits in the 64-bit range come first, and takes all the digits |
| Codec.MapRoundTrips | crates/id_effect_parse/src/codec.rs:45-59 | mapping keeps round trips when one function undoes the other |
| Codec.PairRoundTrips | crates/id_effect_parse/src/codec.rs:135-153 | pairing keeps round trips when the right text may follow the left value |
| Codec.ListRoundTrips | crates/id_effect_parse/src/codec.rs:156-171 | lists keep round trips on every nonempty list |
| Codec.EmptyListNeverParses | crates/id_effect_parse/src/codec.rs:156-171 | the list parser never returns the empty list |
| Codec.EscapeIsPerCharacter | crates/id_effect_parse/src/codec.rs:98-104 | the four successive replacements equal one escape per character |
| Codec.QuotedStringRoundTrips | crates/id_effect_parse/src/codec.rs:63-104 | every string comes back from its quoted form, whatever follows |
| Codec.IntCodecRoundTrips | crates/id_effect_parse/src/codec.rs:108-111 | every 64-bit integer comes back unless a digit follows |
| Codec.IntPairRoundTripsIff | crates/id_effect_parse/src/codec.rs:135-153 | two integers in a row come back exactly when the second is negative |
| Codec.PairListRoundTrips | crates/id_effect_parse/src/codec.rs:135-171 | nonempty lists of string and integer pairs come back |
| Text.ParseOfPrint | crates/id_effect_parse/src/parser.rs:172-195 | the decimal text of an integer parses to that integer iff it is in the 64-bit range |
| Text.DigitsInOrder | crates/id_effect_parse/src/parser.rs:172-195 | the ten digits stand for their places in the usual order |
| Text.I64Iff | crates/id_effect_parse/src/parser.rs:172-195 | the accepted integers are the digit texts with an optional sign whose value is in the 64-bit range |
| Sse.SseParser.Feed | crates/id_effect_ai/src/sse.rs:43-66 | the loop drains every complete line of the old buffer and the chunk |
| Sse.SseParser.Finish | crates/id_effect_ai/src/sse.rs:69-75 | the message in progress is returned unless it is blank |
| Sse.FieldLineAdds | crates/id_effect_ai/src/sse.rs:55-63 | a line with a colon sets the event, adds a datum or is skipped, by its name alone; white space around the name and before the value does not matter |
| Sse.LineIsField | crates/id_effect_ai/src/sse.rs:55-63 | every line with a colon is such a line |
| Sse.OtherLinesAreSkipped | crates/id_effect_ai/src/sse.rs:55-63 | a line without a colon changes nothing |
| Sse.DrainInTwo | crates/id_effect_ai/src/sse.rs:43-66 | draining a text and then a second one with what was left over is draining both at once |
| Sse.ChunkingDoesNotMatter | crates/id_effect_ai/src/sse.rs:43-66 | for every text and every split, the messages and the final state are those of one feed |
| Sse.PrintedMessagesParse | crates/id_effect_ai/src/sse.rs:43-66 | the printed form of any list of good messages, in the field form of section 9.2.6 of the HTML standard, yields exactly that list |
| Sse.PrintParseIff | crates/id_effect_ai/src/sse.rs:43-66 | a list survives printing and parsing iff every message in it is good |
| Pretty.RenderImpl | crates/id_effect_parse/src/pretty.rs:75-105 | appending to the buffer computes the rendering |
| Pretty.RenderIsLaid | crates/id_effect_parse/src/pretty.rs:69-105 | at every width, rendering with its modes and flat trials equals a layout without them: new lines at the current indentation, and each group on one line where a one-line text exists and its bytes fit |
| Pretty.FlatIsOneLineText | crates/id_effect_parse/src/pretty.rs:94-103 | the flat trial has no line feed iff the document has a one-line text, and is that text |
| Pretty.Utf8Counts | crates/id_effect_parse/src/pretty.rs:98 | a character counts as many bytes as its encoding by section 3 of RFC 3629 has |
| Pretty.WiderHasFewerBreaks | crates/id_effect_parse/src/pretty.rs:75-105 | widening the page never adds line breaks |
| Pretty.GroupTwice | crates/id_effect_parse/src/pretty.rs:94-103 | grouping a group changes nothing at any width, indent and mode |
| Pretty.RenderKeepsContent | crates/id_effect_parse/src/pretty.rs:75-105 | every rendering has the same non-layout characters in the same order |
| Pretty.IndentShifts | crates/id_effect_parse/src/pretty.rs:75-105 | a deeper start only shifts lines; no group is laid out differently |
| Pretty.NestShifts | crates/id_effect_parse/src/pretty.rs:93 | nesting shifts every line of a document but its first |
| Pretty.Fill | crates/id_effect_parse/src/pretty.rs:109-119 | the iterator loop builds one group of all pieces with breaks between |
| Pretty.FillIsOneLineOrMany | crates/id_effect_parse/src/pretty.rs:109-119 | the result is one line when that fits, otherwise every piece on its own line |
| Breaker.CircuitBreaker.RunCall | crates/id_effect_resilience/src/circuit_breaker.rs:55-119 | the cell-by-cell body computes the specified step |
| Breaker.RejectedIffTooEarly | crates/id_effect_resilience/src/circuit_breaker.rs:55-119 | in every sequential run a call is rejected iff at least max(threshold, 1) executions have failed since the last success and the last execution ended less than a cooldown before; any other call runs its effect |
| Breaker.RunIsSettled | crates/id_effect_resilience/src/circuit_breaker.rs:55-119 | after every completed call of a sequential run the breaker is not half-open, and open only after enough failures |
| Breaker.SecondReopenIsDead | crates/id_effect_resilience/src/circuit_breaker.rs:103-112 | under every interleaving of atomic gates and atomic settlements, no reachable state lets a failure take the second reopen branch |
| Breaker.SettleIsItsWrites | crates/id_effect_resilience/src/circuit_breaker.rs:83-112 | the single cell writes of a settlement, in the order of the source, add up to the settlement |
| Breaker.SplitSettlementsReopenEarly | crates/id_effect_resilience/src/circuit_breaker.rs:83-112 | between the two writes of a success, and after a success that falls between the count and the reopening of a failure, a half-open breaker takes that branch exactly when the threshold is above one |
| Breaker.OldStampDecides | crates/id_effect_resilience/src/circuit_breaker.rs:98-110 | a caller between the last two writes of a failure is let in or rejected by the stamp of the time before, and rejected if there is none |
| Breaker.CounterIsExact | crates/id_effect_resilience/src/circuit_breaker.rs:83-112 | the counter is the number of failed executions since the last success |
| Breaker.BreakerBound | crates/id_effect_resilience/src/circuit_breaker.rs:55-119 | against an always-failing effect, at most max(threshold, 1) executions plus one per full cooldown that elapses |
| Breaker.SecondProbeAdmittedIff | crates/id_effect_resilience/src/circuit_breaker.rs:66-80 | whatever became of the probe, a second caller is admitted iff the probe is still running, has succeeded, or failed a cooldown ago |
| Breaker.OverlappingProbesAllRun | crates/id_effect_resilience/src/circuit_breaker.rs:66-80 | callers that arrive while a probe runs are all admitted |
| Saga.CompensateIndices | crates/id_effect_fsm/src/saga.rs:106-113 | the reverse loop skips steps without compensation and stops at the first failing one |
| Saga.Run | crates/id_effect_fsm/src/saga.rs:91-103 | the loop with its list of completed indices computes the specified run |
| Saga.SucceedsIff | crates/id_effect_fsm/src/saga.rs:91-103 | a saga completes iff no forward effect fails, and then compensates nothing |
| Saga.FailureIsRolledBack | crates/id_effect_fsm/src/saga.rs:91-103 | failing first at step k runs steps 0..k once each, then the rollback, and reports the compensation's error if one failed and the forward error otherwise |
| Saga.RollbackIsExact | crates/id_effect_fsm/src/saga.rs:106-113 | the rollback runs exactly the compensations of the completed steps, in reverse; a failing one is the last |
| Saga.RollbackRuns | crates/id_effect_fsm/src/saga.rs:106-113 | each compensation runs in the world the one before it left, all but a last one succeed, and the error reported is that one's |
| Saga.FailedSagaRestores | crates/id_effect_fsm/src/saga.rs:91-113 | if each compensation inverts its step and the failing effect changed nothing, the initial world is restored |
| Saga.RestoredIffFailureWasClean | crates/id_effect_fsm/src/saga.rs:91-113 | with reversible compensations the world is restored iff the failing effect changed nothing |
| Outbox.MemoryOutbox.Insert | crates/id_effect_jobs/src/outbox.rs:96-104 | the row is in the table, replacing any with its id; other rows are unchanged |
| Outbox.FetchIsEarliest | crates/id_effect_jobs/src/outbox.rs:106-115 | a batch is in (created_ms, id) order, as large as the limit allows, and every waiting row left out comes later |
| Outbox.MemoryOutbox.FetchUnpublished | crates/id_effect_jobs/src/outbox.rs:106-115 | filter, stable sort and truncation compute that batch |
| Outbox.MemoryOutbox.MarkPublished | crates/id_effect_jobs/src/outbox.rs:117-130 | marks the rows of the ids before the first unknown one, which it reports, and nothing else |
| Outbox.MemoryOutbox.UnpublishedCount | crates/id_effect_jobs/src/outbox.rs:132-139 | counts the rows still to be delivered |
| OutboxRelay.RelayOutbox | crates/id_effect_jobs/src/outbox.rs:145-163 | one relay sends the batch in order; if all succeed it marks exactly the batch, otherwise it changes nothing and returns the first failure |
| OutboxRelay.BacklogAfterRelay | crates/id_effect_jobs/src/outbox.rs:145-163 | a successful relay takes exactly its batch off the front of the backlog |
| OutboxRelay.NothingToRelay | crates/id_effect_jobs/src/outbox.rs:150-153 | a relay is done at once, with nothing relayed, iff its limit is zero or every row is published |
| OutboxRelay.RelaysDrainInOrder | crates/id_effect_jobs/src/outbox.rs:145-163 | successive relays send every waiting row once, in delivery order across batches, n of them min(n * limit, backlog) rows |
| OutboxRelay.StepKeepsInv | crates/id_effect_jobs/src/outbox.rs:96-163 | every atomic step of fresh inserts and relays keeps: marked rows were delivered, batches are ordered and in the table |
| OutboxRelay.EveryStateIsSound | crates/id_effect_jobs/src/outbox.rs:96-163 | that invariant holds in every state of every interleaving |
| OutboxRelay.MarkedOnlyAfterDelivery | crates/id_effect_jobs/src/outbox.rs:145-163 | a row is marked published only after an earlier step published that very row successfully |
| OutboxRelay.MarkedWithItsWholeBatch | crates/id_effect_jobs/src/outbox.rs:145-163 | every marked row was marked by a relay that had published its whole batch |
| OutboxRelay.FailedRelayNeverMarks | crates/id_effect_jobs/src/outbox.rs:155-158 | a relay with a failed publish never marks anything |
| OutboxRelay.MarkNeverMisses | crates/id_effect_jobs/src/outbox.rs:159-161 | marking a fetched batch never meets an unknown id, whatever ran in between |
| OutboxRelay.QuietRunsDeliverOnce | crates/id_effect_jobs/src/outbox.rs:145-163 | in every run in which no relay begins with a row that another relay has taken and not marked, no row is delivered twice |
| OutboxRelay.HeldRowsGoOutTwice | crates/id_effect_jobs/src/outbox.rs:145-163 | after any run, a relay that begins with such a row has a continuation that delivers it twice |
| OutboxRelay.OverlappingRelaysDeliverTwice | crates/id_effect_jobs/src/outbox.rs:145-163 | for any row, two relays that overlap from the start deliver it twice |

## Left out

- PlanMeaning.PlanPreservesMeaningIff: effects are functions of their operand; each effect in a set runs on a clone of the requirements value `r`, so changes an effect makes to `r` are seen by later binds only in sequential code, and that is not modelled.
- PlanMeaning.PlanPreservesMeaning: a macro that returns early, a name used only inside a format string, a variable spelled both raw and plain, or a panic while a later operand is evaluated breaks its hypothesis on evaluating operands; other rewrites of a sequential statement are one opaque `exec`.
- PlanMeaning.SetPreservesMeaning: every value has one type; operands that are `Result` values (crates/id_effect/src/capability/cap_bind.rs, line 95) and errors of different types, which sequential code accepts and the signature of a join does not, and an annotation that picks the type of the effect itself are not modelled.
- EffectGraph.ParseBindStep: the capability-key test on operands is a parameter, and token spans and hygiene are not modelled.
- SqlJournal.EveryStateIsSound: payloads are serialised already; an append that stops because a later event does not serialise (sql_journal.rs, lines 122-123) also leaves a prefix of its block and is not modelled. Versions are unbounded naturals; 64-bit wrap-around is not modelled.
- EventStores.FileJournal.Append: the log starts empty and is written by one caller; an existing file, partial writes and concurrent writers are not modelled.
- EventStores.RunAll: assumes serialisers that decode what they encode, on one line that is not blank; each store draws its own event ids, which are inputs, so answers are compared by versions and payloads.
- Breaker.BreakerBound: sequential calls, unbounded counters and a cooldown above zero; the 32-bit counter's overflow is not modelled.
- Breaker.SecondReopenIsDead: gates and settlements as single steps; of the interleavings of single cell writes, only those of `SplitSettlementsReopenEarly` and `OldStampDecides` are modelled.
- OutboxRelay.MarkedOnlyAfterDelivery: inserts are of unpublished rows with new ids, as the generated ids make them; an insert over an existing id replaces the row.
- Saga.Run: effects are functions on one world value; panics inside effects are not modelled.
- Json.ParseNumber: a number with a fraction is kept as its text, so rounding to a double is not modelled; exponents are not parsed by the code either.
- Pretty.IndentShifts: for documents whose texts hold no line feed; a text with one is not shifted. In all layout lemmas an unlimited width stands for the largest machine integer.
- Error messages and error paths: failures of documents, patches and parsers carry no payload in the model.
- The node order of a hash map or set: tables that the code iterates in key order are given as sequences in that order.
- `Parser::{many, alt, optional, between}`, the boolean and float codecs: no modelled parser is built on them, and floats would need their rounding.
- `fetch_unpublished` under a failing lock, mutex poisoning, wall clocks and generated ids: inputs or absent.
- Lenses, prisms, `Diff`, `Config`, `Matcher`, exit codes, log levels: closures and tables that keep no state and have no protocol between calls.
- The async runtime, STM, streams, schedules, HTTP, telemetry, Kafka and the durable workflow step journal: plumbing or code that is not part of this model.
- `emit_parallel_set` code text, the derive macros and the lint driver: syntax plumbing.
