/**
  The SQL-backed event journal: a backend whose two operations are atomic, the
  sequential append built on them, and every interleaving of concurrent appends.
 */
module SqlJournal {
  import opened Sorting

  /** Versions are unbounded naturals here; the source counts them in 64 bits. */
  datatype Row = Row(version: nat, eventId: string, payload: string)
  type Store = map<string, seq<Row>>

  datatype Outcome = Inserted | VersionConflict(streamId: string, expected: nat, actual: nat)

  function RowsOf(store: Store, stream: string): seq<Row> {
    if stream in store then store[stream] else []
  }

  function FromVersion(rows: seq<Row>, from: nat): seq<Row> {
    if rows == [] then []
    else (if rows[0].version >= from then [rows[0]] else []) + FromVersion(rows[1..], from)
  }

  predicate HasVersion(rows: seq<Row>, version: nat) {
    exists k :: 0 <= k < |rows| && rows[k].version == version
  }

  function MaxVersion(rows: seq<Row>): nat {
    if rows == [] then 0
    else
      var m := MaxVersion(rows[1..]);
      if rows[0].version >= m then rows[0].version else m
  }

  function VersionOf(r: Row): int {
    r.version
  }

  function SortByVersion(rows: seq<Row>): seq<Row> {
    SortBy(rows, VersionOf)
  }

  /** The guarded body of the backend's insert. */
  function Insert(store: Store, stream: string, row: Row): (Store, Outcome) {
    var rows := RowsOf(store, stream);
    if HasVersion(rows, row.version) then
      (store[stream := rows],
       VersionConflict(stream, if row.version > 0 then row.version - 1 else 0, row.version))
    else (store[stream := SortByVersion(rows + [row])], Inserted)
  }

  /**
    On every store, an insert conflicts exactly when its version is taken, and then
    names that version and the one before it; otherwise the row joins the others, in
    version order.
   */
  lemma InsertConflictsIff(store: Store, stream: string, row: Row, version: int)
    ensures var rows := RowsOf(store, stream);
            var (after, outcome) := Insert(store, stream, row);
            && (outcome.VersionConflict? <==> exists k :: 0 <= k < |rows| && rows[k].version == row.version)
            && (outcome.VersionConflict? ==>
                  && RowsOf(after, stream) == rows && outcome.streamId == stream && outcome.actual == row.version
                  && outcome.expected == if row.version == 0 then 0 else row.version - 1)
            && (outcome == Inserted ==>
                  && IsSorted(RowsOf(after, stream), VersionOf)
                  && WithKey(RowsOf(after, stream), VersionOf, version) == WithKey(rows + [row], VersionOf, version))
    ensures forall other :: other != stream ==> RowsOf(Insert(store, stream, row).0, other) == RowsOf(store, other)
  {
    SortIsStable(RowsOf(store, stream) + [row], VersionOf, version);
  }

  /** Rows 1, 2, ..., n in order: no gap, no duplicate. */
  ghost predicate Contiguous(rows: seq<Row>) {
    forall k :: 0 <= k < |rows| ==> rows[k].version == k + 1
  }

  ghost predicate AllContiguous(store: Store) {
    forall stream :: Contiguous(RowsOf(store, stream))
  }

  lemma {:induction false} MaxOfContiguous(rows: seq<Row>, first: nat)
    requires forall k :: 0 <= k < |rows| ==> rows[k].version == first + k + 1
    ensures MaxVersion(rows) == if rows == [] then 0 else first + |rows|
  {
    if rows != [] {
      MaxOfContiguous(rows[1..], first + 1);
    }
  }

  lemma {:induction false} SelectFromContiguous(rows: seq<Row>, first: nat, from: nat)
    requires forall k :: 0 <= k < |rows| ==> rows[k].version == first + k + 1
    ensures FromVersion(rows, from) ==
      if from <= first + 1 then rows else if from > first + |rows| then [] else rows[from - first - 1..]
  {
    if rows != [] {
      SelectFromContiguous(rows[1..], first + 1, from);
      assert rows == [rows[0]] + rows[1..];
    }
  }

  /** What `append` reads first: the length of a contiguous stream. */
  lemma LatestOfContiguous(rows: seq<Row>)
    requires Contiguous(rows)
    ensures MaxVersion(FromVersion(rows, 1)) == |rows|
  {
    SelectFromContiguous(rows, 0, 1);
    MaxOfContiguous(rows, 0);
  }

  /** On a contiguous stream an insert at or below the next version conflicts, or extends the stream by one row. */
  lemma InsertOnContiguous(store: Store, stream: string, row: Row)
    requires AllContiguous(store)
    requires 1 <= row.version <= |RowsOf(store, stream)| + 1
    ensures var rows := RowsOf(store, stream);
            var (after, outcome) := Insert(store, stream, row);
            if row.version <= |rows| then
              outcome == VersionConflict(stream, row.version - 1, row.version) && RowsOf(after, stream) == rows
            else
              outcome == Inserted && RowsOf(after, stream) == rows + [row]
    ensures forall other :: other != stream ==> RowsOf(Insert(store, stream, row).0, other) == RowsOf(store, other)
    ensures AllContiguous(Insert(store, stream, row).0)
  {
    var rows := RowsOf(store, stream);
    assert Contiguous(rows);
    if row.version <= |rows| {
      assert rows[row.version - 1].version == row.version;
      UpdateKeepsContiguous(store, stream, rows);
    } else {
      AppendedIsSorted(rows, row);
      UpdateKeepsContiguous(store, stream, rows + [row]);
    }
  }

  lemma AppendedIsSorted(rows: seq<Row>, row: Row)
    requires Contiguous(rows) && row.version == |rows| + 1
    ensures SortByVersion(rows + [row]) == rows + [row] && Contiguous(rows + [row])
    ensures !HasVersion(rows, row.version)
  {
    SortOfSorted(rows + [row], VersionOf);
  }

  lemma UpdateKeepsContiguous(store: Store, stream: string, rows: seq<Row>)
    requires AllContiguous(store) && Contiguous(rows)
    ensures AllContiguous(store[stream := rows])
  {
    var after := store[stream := rows];
    forall s
      ensures Contiguous(RowsOf(after, s))
    {
      assert Contiguous(RowsOf(store, s));
    }
  }

  // ------------------------------------------------------------------
  // The journal used by one caller at a time
  // ------------------------------------------------------------------

  datatype Event = Event(id: string, json: string)

  /** The rows that `append` writes when it starts after `latest`. */
  function Block(latest: nat, events: seq<Event>): seq<Row> {
    seq(|events|, i requires 0 <= i < |events| => Row(latest + i + 1, events[i].id, events[i].json))
  }

  /** The in-memory backend; each method body runs under the lock. */
  class Backend {
    var store: Store

    constructor ()
      ensures store == map[]
    {
      store := map[];
    }

    method InsertRow(stream: string, row: Row) returns (outcome: Outcome)
      modifies this
      ensures (store, outcome) == Insert(old(store), stream, row)
    {
      var rows := RowsOf(store, stream);
      store := store[stream := rows];
      if HasVersion(rows, row.version) {
        return VersionConflict(stream, if row.version > 0 then row.version - 1 else 0, row.version);
      }
      store := store[stream := SortByVersion(rows + [row])];
      assert store == old(store)[stream := SortByVersion(rows + [row])];
      outcome := Inserted;
    }

    method SelectFrom(stream: string, from: nat) returns (rows: seq<Row>)
      ensures rows == FromVersion(RowsOf(store, stream), from)
    {
      rows := [];
      var all := RowsOf(store, stream);
      for k := 0 to |all|
        invariant FromVersion(all, from) == rows + FromVersion(all[k..], from)
      {
        if all[k].version >= from {
          rows := rows + [all[k]];
        }
      }
    }

    ghost predicate Valid()
      reads this
    {
      AllContiguous(store)
    }

    /** One iteration of `append`: the insert at the next version cannot conflict. */
    method InsertAtEnd(stream: string, row: Row) returns (outcome: Outcome)
      requires Valid() && row.version == |RowsOf(store, stream)| + 1
      modifies this
      ensures Valid() && outcome == Inserted
      ensures Appended(old(store), store, stream, [row])
    {
      InsertOnContiguous(store, stream, row);
      outcome := InsertRow(stream, row);
    }

    /** With nobody else writing, `append` succeeds and extends exactly its stream by one block. */
    method Append(stream: string, events: seq<Event>) returns (r: Outcome, out: seq<Row>)
      requires Valid()
      modifies this
      ensures Valid() && r == Inserted
      ensures out == Block(|old(RowsOf(store, stream))|, events)
      ensures Appended(old(store), store, stream, out)
    {
      var seen := SelectFrom(stream, 1);
      var latest := MaxVersion(seen);
      assert latest == |RowsOf(store, stream)| by { LatestOfContiguous(RowsOf(store, stream)); }
      r, out := Inserted, [];
      for i := 0 to |events|
        invariant Valid() && r == Inserted
        invariant out == Block(latest, events[..i])
        invariant Appended(old(store), store, stream, out)
      {
        var row := Row(latest + i + 1, events[i].id, events[i].json);
        ghost var before := store;
        r := InsertAtEnd(stream, row);
        BlockGrows(latest, events, i);
        AppendedTwice(old(store), before, store, stream, out, [row]);
        out := out + [row];
      }
      assert events[..|events|] == events;
    }
  }

  /** `after` is `before` with rows added at the end of one stream. */
  ghost predicate Appended(before: Store, after: Store, stream: string, rows: seq<Row>) {
    && RowsOf(after, stream) == RowsOf(before, stream) + rows
    && forall other :: other != stream ==> RowsOf(after, other) == RowsOf(before, other)
  }

  lemma AppendedTwice(a: Store, b: Store, c: Store, stream: string, x: seq<Row>, y: seq<Row>)
    requires Appended(a, b, stream, x) && Appended(b, c, stream, y)
    ensures Appended(a, c, stream, x + y)
  {
    forall other | other != stream
      ensures RowsOf(c, other) == RowsOf(a, other)
    {
      assert RowsOf(b, other) == RowsOf(a, other);
    }
  }

  lemma BlockGrows(latest: nat, events: seq<Event>, i: nat)
    requires i < |events|
    ensures |Block(latest, events[..i])| == i
    ensures Block(latest, events[..i + 1]) ==
            Block(latest, events[..i]) + [Row(latest + i + 1, events[i].id, events[i].json)]
  {
  }

  // ------------------------------------------------------------------
  // Concurrent appends
  // ------------------------------------------------------------------

  datatype Status = Running | Returned | Failed(error: Outcome)

  /** One call of `append`: what it read, and how many rows it has inserted. */
  datatype Writer = Writer(stream: string, events: seq<Event>, latest: nat, inserted: nat, status: Status)

  datatype State = State(store: Store, writers: map<nat, Writer>)

  datatype Step =
    | Begin(id: nat, stream: string, events: seq<Event>)
    | InsertNext(id: nat)
    | Return(id: nat)

  function NextRow(w: Writer): Row
    requires w.inserted < |w.events|
  {
    Row(w.latest + w.inserted + 1, w.events[w.inserted].id, w.events[w.inserted].json)
  }

  predicate Enabled(s: State, step: Step) {
    match step
    case Begin(id, _, _) => id !in s.writers
    case InsertNext(id) =>
      id in s.writers && s.writers[id].status == Running && s.writers[id].inserted < |s.writers[id].events|
    case Return(id) =>
      id in s.writers && s.writers[id].status == Running && s.writers[id].inserted == |s.writers[id].events|
  }

  /** How writer `id` goes on when the backend answers its insert. */
  function AfterInsert(s: State, id: nat, answer: (Store, Outcome)): State
    requires id in s.writers
  {
    var w := s.writers[id];
    State(answer.0, s.writers[id :=
      if answer.1 == Inserted then w.(inserted := w.inserted + 1) else w.(status := Failed(answer.1))])
  }

  /** One atomic backend call (or the final return) of one writer. */
  function Apply(s: State, step: Step): State
    requires Enabled(s, step)
  {
    match step
    case Begin(id, stream, events) =>
      var latest := MaxVersion(FromVersion(RowsOf(s.store, stream), 1));
      s.(writers := s.writers[id := Writer(stream, events, latest, 0, Running)])
    case InsertNext(id) =>
      var w := s.writers[id];
      AfterInsert(s, id, Insert(s.store, w.stream, NextRow(w)))
    case Return(id) =>
      s.(writers := s.writers[id := s.writers[id].(status := Returned)])
  }

  const Initial := State(map[], map[])

  /** The states visited by a schedule, starting from the empty journal. */
  ghost predicate IsRun(states: seq<State>, steps: seq<Step>) {
    && |states| == |steps| + 1
    && states[0] == Initial
    && forall k {:trigger steps[k]} :: 0 <= k < |steps| ==>
         Enabled(states[k], steps[k]) && states[k + 1] == Apply(states[k], steps[k])
  }

  /** The writer's rows are in the journal, as one unbroken block after what it read. */
  ghost predicate OwnsBlock(s: State, w: Writer) {
    && w.inserted <= |w.events|
    && w.latest + w.inserted <= |RowsOf(s.store, w.stream)|
    && RowsOf(s.store, w.stream)[w.latest..w.latest + w.inserted] == Block(w.latest, w.events[..w.inserted])
  }

  /** Position `k` of `stream` was written by `id`. */
  ghost predicate Wrote(s: State, id: nat, stream: string, k: nat) {
    && id in s.writers
    && s.writers[id].stream == stream
    && s.writers[id].latest <= k < s.writers[id].latest + s.writers[id].inserted
  }

  ghost predicate StatusAgrees(s: State, w: Writer) {
    match w.status
    case Running => true
    case Returned => w.inserted == |w.events|
    case Failed(e) =>
      && w.inserted < |w.events|
      && w.latest + w.inserted < |RowsOf(s.store, w.stream)|
      && e == VersionConflict(w.stream, w.latest + w.inserted, w.latest + w.inserted + 1)
  }

  ghost predicate AllOwned(s: State) {
    forall stream, k {:trigger HasOwner(s, stream, k)} :: 0 <= k < |RowsOf(s.store, stream)| ==> HasOwner(s, stream, k)
  }

  ghost predicate HasOwner(s: State, stream: string, k: nat) {
    exists id :: Wrote(s, id, stream, k)
  }

  ghost predicate OwnersUnique(s: State) {
    forall stream, k, a, b :: Wrote(s, a, stream, k) && Wrote(s, b, stream, k) ==> a == b
  }

  /** What every reachable state satisfies. */
  ghost predicate Inv(s: State) {
    && AllContiguous(s.store)
    && (forall id :: id in s.writers ==> OwnsBlock(s, s.writers[id]) && StatusAgrees(s, s.writers[id]))
    && AllOwned(s)
    && OwnersUnique(s)
  }

  /** No step removes or changes a row. */
  ghost predicate Extends(a: State, b: State) {
    forall stream :: RowsOf(a.store, stream) <= RowsOf(b.store, stream)
  }

  lemma SameOwners(s: State, t: State)
    requires AllOwned(s) && OwnersUnique(s)
    requires forall stream :: RowsOf(s.store, stream) == RowsOf(t.store, stream)
    requires forall stream, k, a :: Wrote(s, a, stream, k) <==> Wrote(t, a, stream, k)
    ensures AllOwned(t) && OwnersUnique(t)
  {
    forall stream, k | 0 <= k < |RowsOf(t.store, stream)|
      ensures HasOwner(t, stream, k)
    {
      assert RowsOf(s.store, stream) == RowsOf(t.store, stream);
      assert HasOwner(s, stream, k);
      var a :| Wrote(s, a, stream, k);
      assert Wrote(t, a, stream, k);
    }
  }

  lemma BeginKeepsInv(s: State, step: Step)
    requires Inv(s) && Enabled(s, step) && step.Begin?
    ensures Inv(Apply(s, step)) && Extends(s, Apply(s, step))
    ensures Apply(s, step).writers[step.id].latest == |RowsOf(s.store, step.stream)|
  {
    var t := Apply(s, step);
    LatestOfContiguous(RowsOf(s.store, step.stream));
    forall stream, k, a
      ensures Wrote(s, a, stream, k) <==> Wrote(t, a, stream, k)
    {
    }
    SameOwners(s, t);
  }

  lemma ReturnKeepsInv(s: State, step: Step)
    requires Inv(s) && Enabled(s, step) && step.Return?
    ensures Inv(Apply(s, step)) && Extends(s, Apply(s, step))
  {
    var t := Apply(s, step);
    forall stream, k, a
      ensures Wrote(s, a, stream, k) <==> Wrote(t, a, stream, k)
    {
    }
    SameOwners(s, t);
  }

  /** An insert that finds its version taken leaves all rows alone. */
  lemma ConflictKeepsInv(s: State, id: nat)
    requires Inv(s) && Enabled(s, InsertNext(id))
    requires s.writers[id].latest + s.writers[id].inserted < |RowsOf(s.store, s.writers[id].stream)|
    ensures Inv(Apply(s, InsertNext(id))) && Extends(s, Apply(s, InsertNext(id)))
    ensures Apply(s, InsertNext(id)).writers[id].status.Failed?
  {
    var w, t := s.writers[id], Apply(s, InsertNext(id));
    InsertOnContiguous(s.store, w.stream, NextRow(w));
    forall stream
      ensures RowsOf(t.store, stream) == RowsOf(s.store, stream)
    {
    }
    forall stream, k, a
      ensures Wrote(s, a, stream, k) <==> Wrote(t, a, stream, k)
    {
    }
    SameOwners(s, t);
  }

  lemma BlocksSurvive(s: State, t: State, w: Writer)
    requires OwnsBlock(s, w) && StatusAgrees(s, w) && Extends(s, t)
    ensures OwnsBlock(t, w) && StatusAgrees(t, w)
  {
    var a, b := RowsOf(s.store, w.stream), RowsOf(t.store, w.stream);
    assert a <= b;
    assert a[w.latest..w.latest + w.inserted] == b[w.latest..w.latest + w.inserted];
  }

  /** An insert at the end of the stream adds one row, owned by the inserting writer alone. */
  lemma ExtendKeepsInv(s: State, id: nat)
    requires Inv(s) && Enabled(s, InsertNext(id))
    requires s.writers[id].latest + s.writers[id].inserted == |RowsOf(s.store, s.writers[id].stream)|
    ensures Inv(Apply(s, InsertNext(id))) && Extends(s, Apply(s, InsertNext(id)))
    ensures RowsOf(Apply(s, InsertNext(id)).store, s.writers[id].stream)
         == RowsOf(s.store, s.writers[id].stream) + [NextRow(s.writers[id])]
  {
    InsertGoesThrough(s, id);
    ExtendedIsSound(s, Apply(s, InsertNext(id)), id);
  }

  /** `t` is `s` after writer `id` has inserted its next row at the end of its stream. */
  ghost predicate ExtendedBy(s: State, t: State, id: nat)
    requires id in s.writers && s.writers[id].inserted < |s.writers[id].events|
  {
    && AllContiguous(t.store)
    && t.writers == s.writers[id := s.writers[id].(inserted := s.writers[id].inserted + 1)]
    && Appended(s.store, t.store, s.writers[id].stream, [NextRow(s.writers[id])])
  }

  lemma InsertGoesThrough(s: State, id: nat)
    requires AllContiguous(s.store) && Enabled(s, InsertNext(id))
    requires s.writers[id].latest + s.writers[id].inserted == |RowsOf(s.store, s.writers[id].stream)|
    ensures ExtendedBy(s, Apply(s, InsertNext(id)), id)
  {
    var w := s.writers[id];
    InsertAppends(s.store, w.stream, NextRow(w));
    assert Apply(s, InsertNext(id)) == AfterInsert(s, id, Insert(s.store, w.stream, NextRow(w)));
  }

  lemma InsertAppends(store: Store, stream: string, row: Row)
    requires AllContiguous(store) && row.version == |RowsOf(store, stream)| + 1
    ensures var answer := Insert(store, stream, row);
            answer.1 == Inserted && AllContiguous(answer.0) && Appended(store, answer.0, stream, [row])
  {
    InsertOnContiguous(store, stream, row);
  }

  lemma ExtendedIsSound(s: State, t: State, id: nat)
    requires Inv(s) && id in s.writers && s.writers[id].status == Running
    requires s.writers[id].inserted < |s.writers[id].events| && ExtendedBy(s, t, id)
    requires s.writers[id].latest + s.writers[id].inserted == |RowsOf(s.store, s.writers[id].stream)|
    ensures Inv(t) && Extends(s, t)
  {
    ExtendKeepsBlocks(s, t, id);
    ExtendKeepsOwners(s, t, id);
  }

  lemma ExtendKeepsBlocks(s: State, t: State, id: nat)
    requires id in s.writers &&
        forall a :: a in s.writers ==> OwnsBlock(s, s.writers[a]) && StatusAgrees(s, s.writers[a])
    requires s.writers[id].inserted < |s.writers[id].events| && s.writers[id].status == Running
    requires s.writers[id].latest + s.writers[id].inserted == |RowsOf(s.store, s.writers[id].stream)|
    requires t.writers == s.writers[id := s.writers[id].(inserted := s.writers[id].inserted + 1)]
    requires Appended(s.store, t.store, s.writers[id].stream, [NextRow(s.writers[id])])
    ensures Extends(s, t)
    ensures forall a :: a in t.writers ==> OwnsBlock(t, t.writers[a]) && StatusAgrees(t, t.writers[a])
  {
    forall stream
      ensures RowsOf(s.store, stream) <= RowsOf(t.store, stream)
    {
    }
    forall a | a in t.writers
      ensures OwnsBlock(t, t.writers[a]) && StatusAgrees(t, t.writers[a])
    {
      if a != id {
        BlocksSurvive(s, t, s.writers[a]);
      } else {
        ExtendBlock(RowsOf(s.store, s.writers[id].stream), s.writers[id]);
      }
    }
  }

  lemma ExtendKeepsOwners(s: State, t: State, id: nat)
    requires AllOwned(s) && OwnersUnique(s) && id in s.writers
    requires forall a :: a in s.writers ==> OwnsBlock(s, s.writers[a])
    requires s.writers[id].latest + s.writers[id].inserted == |RowsOf(s.store, s.writers[id].stream)|
    requires t.writers == s.writers[id := s.writers[id].(inserted := s.writers[id].inserted + 1)]
    requires |RowsOf(t.store, s.writers[id].stream)| == |RowsOf(s.store, s.writers[id].stream)| + 1
    requires forall other :: other != s.writers[id].stream ==> RowsOf(t.store, other) == RowsOf(s.store, other)
    ensures AllOwned(t) && OwnersUnique(t)
  {
    var w := s.writers[id];
    var n := w.latest + w.inserted;
    forall stream, k, a
      ensures Wrote(t, a, stream, k) <==> Wrote(s, a, stream, k) || (a == id && stream == w.stream && k == n)
    {
    }
    forall stream, k | 0 <= k < |RowsOf(t.store, stream)|
      ensures HasOwner(t, stream, k)
    {
      if stream == w.stream && k == n {
        assert Wrote(t, id, stream, k);
      } else {
        assert HasOwner(s, stream, k);
        var a :| Wrote(s, a, stream, k);
        assert Wrote(t, a, stream, k);
      }
    }
  }

  lemma ExtendBlock(rows: seq<Row>, w: Writer)
    requires w.inserted < |w.events| && w.latest + w.inserted == |rows|
    requires rows[w.latest..] == Block(w.latest, w.events[..w.inserted])
    ensures (rows + [NextRow(w)])[w.latest..] == Block(w.latest, w.events[..w.inserted + 1])
  {
    BlockGrows(w.latest, w.events, w.inserted);
    assert (rows + [NextRow(w)])[w.latest..] == rows[w.latest..] + [NextRow(w)];
  }

  /** Every atomic step keeps the invariant and only adds rows. */
  lemma StepKeepsInv(s: State, step: Step)
    requires Inv(s) && Enabled(s, step)
    ensures Inv(Apply(s, step)) && Extends(s, Apply(s, step))
  {
    match step
    case Begin(_, _, _) => BeginKeepsInv(s, step);
    case Return(_) => ReturnKeepsInv(s, step);
    case InsertNext(id) =>
      if s.writers[id].latest + s.writers[id].inserted < |RowsOf(s.store, s.writers[id].stream)| {
        ConflictKeepsInv(s, id);
      } else {
        ExtendKeepsInv(s, id);
      }
  }

  /** Main theorem, one state: over every interleaving every reachable state satisfies the invariant. */
  lemma {:induction false} EveryStateIsSound(states: seq<State>, steps: seq<Step>, n: nat)
    requires IsRun(states, steps) && n < |states|
    ensures Inv(states[n])
  {
    if n > 0 {
      EveryStateIsSound(states, steps, n - 1);
      StepKeepsInv(states[n - 1], steps[n - 1]);
    }
  }

  lemma StepExtends(states: seq<State>, steps: seq<Step>, n: nat)
    requires IsRun(states, steps) && n < |steps|
    ensures Extends(states[n], states[n + 1])
  {
    EveryStateIsSound(states, steps, n);
    StepKeepsInv(states[n], steps[n]);
  }

  lemma ExtendsTransitive(a: State, b: State, c: State)
    requires Extends(a, b) && Extends(b, c)
    ensures Extends(a, c)
  {
    forall stream
      ensures RowsOf(a.store, stream) <= RowsOf(c.store, stream)
    {
      assert RowsOf(a.store, stream) <= RowsOf(b.store, stream);
      assert RowsOf(b.store, stream) <= RowsOf(c.store, stream);
    }
  }

  /** Main theorem, two states: later states only extend earlier ones, so no row ever changes. */
  lemma {:induction false} RowsNeverChange(states: seq<State>, steps: seq<Step>, m: nat, n: nat)
    requires IsRun(states, steps) && m <= n < |states|
    ensures Extends(states[m], states[n])
    decreases n - m
  {
    if m < n {
      RowsNeverChange(states, steps, m, n - 1);
      StepExtends(states, steps, n - 1);
      ExtendsTransitive(states[m], states[n - 1], states[n]);
    }
  }

  /** A writer keeps what it read, and its inserted count never goes down. */
  lemma {:induction false} WritersPersist(states: seq<State>, steps: seq<Step>, m: nat, n: nat, id: nat)
    requires IsRun(states, steps) && m <= n < |states| && id in states[m].writers
    ensures id in states[n].writers
    ensures var a, b := states[m].writers[id], states[n].writers[id];
            && b.stream == a.stream && b.events == a.events && b.latest == a.latest && a.inserted <= b.inserted
            && (a.status != Running ==> b == a)
    decreases n - m
  {
    if m < n {
      WritersPersist(states, steps, m, n - 1, id);
      assert Enabled(states[n - 1], steps[n - 1]);
    }
  }

  /** A returned append owns one unbroken block of versions, with its payloads in order, for ever. */
  lemma ReturnedOwnsWholeBlock(states: seq<State>, steps: seq<Step>, m: nat, n: nat, id: nat)
    requires IsRun(states, steps) && m <= n < |states|
    requires id in states[m].writers && states[m].writers[id].status == Returned
    ensures var w := states[m].writers[id];
            var rows := RowsOf(states[n].store, w.stream);
            w.latest + |w.events| <= |rows| && rows[w.latest..w.latest + |w.events|] == Block(w.latest, w.events)
  {
    WritersPersist(states, steps, m, n, id);
    EveryStateIsSound(states, steps, n);
    var w := states[n].writers[id];
    assert OwnsBlock(states[n], w) && StatusAgrees(states[n], w);
    assert w.events[..|w.events|] == w.events;
  }

  /** A failed append leaves a proper prefix of its block, and another writer owns the version it lost. */
  lemma FailedLeavesPrefix(states: seq<State>, steps: seq<Step>, n: nat, id: nat) returns (winner: nat)
    requires IsRun(states, steps) && n < |states|
    requires id in states[n].writers && states[n].writers[id].status.Failed?
    ensures var w := states[n].writers[id];
            var rows := RowsOf(states[n].store, w.stream);
            && w.inserted < |w.events| && w.latest + w.inserted < |rows|
            && rows[w.latest..w.latest + w.inserted] == Block(w.latest, w.events[..w.inserted])
            && w.status.error == VersionConflict(w.stream, w.latest + w.inserted, w.latest + w.inserted + 1)
            && winner != id && Wrote(states[n], winner, w.stream, w.latest + w.inserted)
  {
    EveryStateIsSound(states, steps, n);
    var w := states[n].writers[id];
    assert OwnsBlock(states[n], w) && StatusAgrees(states[n], w);
    assert HasOwner(states[n], w.stream, w.latest + w.inserted);
    winner :| Wrote(states[n], winner, w.stream, w.latest + w.inserted);
  }

  /** An append that begins after another one on the stream has written gets strictly larger versions. */
  lemma LaterAppendsGetLargerVersions(states: seq<State>, steps: seq<Step>, m: nat, n: nat, a: nat)
    requires IsRun(states, steps) && m < n < |states|
    requires a in states[m].writers && steps[m].Begin?
    requires steps[m].stream == states[m].writers[a].stream
    requires steps[m].id in states[n].writers
    ensures var first, second := states[m].writers[a], states[n].writers[steps[m].id];
            first.latest + first.inserted <= second.latest
    ensures forall i, j ::
      Wrote(states[m], a, steps[m].stream, i) && Wrote(states[n], steps[m].id, steps[m].stream, j) ==> i < j
  {
    EveryStateIsSound(states, steps, m);
    assert OwnsBlock(states[m], states[m].writers[a]);
    BeginKeepsInv(states[m], steps[m]);
    WritersPersist(states, steps, m + 1, n, steps[m].id);
  }

  /** What any reader sees at any moment: the versions from `from` on, in order and without a gap. */
  lemma ReadsAreGapFree(states: seq<State>, steps: seq<Step>, n: nat, stream: string, from: nat)
    requires IsRun(states, steps) && n < |states|
    ensures var rows := RowsOf(states[n].store, stream);
            FromVersion(rows, from) ==
              if from <= 1 then rows else if from > |rows| then [] else rows[from - 1..]
    ensures Contiguous(RowsOf(states[n].store, stream))
  {
    EveryStateIsSound(states, steps, n);
    SelectFromContiguous(RowsOf(states[n].store, stream), 0, from);
  }

  // ------------------------------------------------------------------
  // An undisturbed append
  // ------------------------------------------------------------------

  lemma OneStepMore(states: seq<State>, steps: seq<Step>, step: Step)
    requires IsRun(states, steps) && Enabled(states[|steps|], step)
    ensures IsRun(states + [Apply(states[|steps|], step)], steps + [step])
  {
  }

  /** Writer `id` is running, and what it has inserted ends its stream. */
  ghost predicate AtEnd(s: State, id: nat) {
    && id in s.writers && s.writers[id].status == Running && s.writers[id].inserted <= |s.writers[id].events|
    && s.writers[id].latest + s.writers[id].inserted == |RowsOf(s.store, s.writers[id].stream)|
  }

  lemma OneInsert(states: seq<State>, steps: seq<Step>, id: nat) returns (t: State)
    requires IsRun(states, steps) && AtEnd(states[|steps|], id)
    requires states[|steps|].writers[id].inserted < |states[|steps|].writers[id].events|
    ensures IsRun(states + [t], steps + [InsertNext(id)]) && AtEnd(t, id)
    ensures var w := states[|steps|].writers[id]; t.writers[id] == w.(inserted := w.inserted + 1)
  {
    var s := states[|steps|];
    EveryStateIsSound(states, steps, |steps|);
    InsertGoesThrough(s, id);
    OneStepMore(states, steps, InsertNext(id));
    t := Apply(s, InsertNext(id));
    assert Appended(s.store, t.store, s.writers[id].stream, [NextRow(s.writers[id])]);
  }

  lemma Joined<T>(a: seq<T>, b: T, c: seq<T>)
    ensures a + ([b] + c) == a + [b] + c
  {
  }

  /** From here the writer's inserts all go through. */
  lemma {:induction false} InsertsGoThrough(states: seq<State>, steps: seq<Step>, id: nat, n: nat)
    returns (more: seq<State>, todo: seq<Step>)
    requires IsRun(states, steps) && AtEnd(states[|steps|], id)
    requires n == |states[|steps|].writers[id].events| - states[|steps|].writers[id].inserted
    ensures IsRun(states + more, steps + todo) && AtEnd((states + more)[|steps + todo|], id)
    ensures var w := states[|steps|].writers[id];
            (states + more)[|steps + todo|].writers[id] == w.(inserted := |w.events|)
    decreases n
  {
    if n == 0 {
      more, todo := [], [];
      assert states + [] == states && steps + [] == steps;
    } else {
      var t := OneInsert(states, steps, id);
      var tail, rest := InsertsGoThrough(states + [t], steps + [InsertNext(id)], id, n - 1);
      more, todo := [t] + tail, [InsertNext(id)] + rest;
      Joined(states, t, tail);
      Joined(steps, InsertNext(id), rest);
    }
  }

  /** Main theorem: after any run, an append that nobody disturbs returns and owns its whole block. */
  lemma UndisturbedAppendReturns(states: seq<State>, steps: seq<Step>, id: nat, stream: string, events: seq<Event>)
    returns (more: seq<State>, todo: seq<Step>)
    requires IsRun(states, steps) && id !in states[|steps|].writers
    ensures IsRun(states + more, steps + todo)
    ensures var rows, last := RowsOf(states[|steps|].store, stream), (states + more)[|steps + todo|];
            && id in last.writers && last.writers[id].status == Returned
            && RowsOf(last.store, stream) == rows + Block(|rows|, events)
  {
    var s, begin := states[|steps|], Begin(id, stream, events);
    EveryStateIsSound(states, steps, |steps|);
    BeginKeepsInv(s, begin);
    OneStepMore(states, steps, begin);
    var states1, steps1 := states + [Apply(s, begin)], steps + [begin];
    var more1, todo1 := InsertsGoThrough(states1, steps1, id, |events|);
    var states2, steps2 := states1 + more1, steps1 + todo1;
    var last := states2[|steps2|];
    OneStepMore(states2, steps2, Return(id));
    more, todo := [Apply(s, begin)] + more1 + [Apply(last, Return(id))], [begin] + todo1 + [Return(id)];
    assert states + more == states2 + [Apply(last, Return(id))] && steps + todo == steps2 + [Return(id)];
    EveryStateIsSound(states2, steps2, |steps2|);
    RowsNeverChange(states2, steps2, |steps|, |steps2|);
    BlockEndsStream(RowsOf(s.store, stream), RowsOf(last.store, stream), last, last.writers[id]);
  }

  lemma BlockEndsStream(before: seq<Row>, after: seq<Row>, s: State, w: Writer)
    requires OwnsBlock(s, w) && w.inserted == |w.events| && w.latest == |before| && before <= after
    requires after == RowsOf(s.store, w.stream) && |after| == w.latest + w.inserted
    ensures after == before + Block(|before|, w.events)
  {
    assert w.events[..|w.events|] == w.events;
    assert after == after[..w.latest] + after[w.latest..w.latest + w.inserted];
  }
}
