/**
  The transactional outbox table, kept in memory and ordered by row id.

  - Keys are compared as strings, character by character; delivery order is by
    creation time and then by key.
  - A fetch filters the unpublished rows, sorts them by creation time with a
    stable sort, and truncates; the result is the front of the backlog.
  - Marking goes through the ids in order and stops at the first unknown one;
    `OutboxRelay` builds the relay on these operations.
 */
module Outbox {
  import opened Results
  import opened Options
  import opened Sorting
  import opened KeyOrder

  datatype Error = NotFound(id: string) | PublishFailed(reason: string)

  datatype Record = Record(id: string, aggregateId: string, eventType: string, payload: seq<bv8>,
                           createdMs: int, published: bool)

  // ------------------------------------------------------------------
  // Orders
  // ------------------------------------------------------------------

  /** Delivery order: by creation time, then by id. */
  predicate Before(a: Record, b: Record) {
    a.createdMs < b.createdMs || (a.createdMs == b.createdMs && LexLess(a.id, b.id))
  }

  ghost predicate Ordered(rows: seq<Record>) {
    forall i, j :: 0 <= i < j < |rows| ==> Before(rows[i], rows[j])
  }

  function IdOf(r: Record): string {
    r.id
  }

  /** The table: one row per id, in key order. */
  ghost predicate IsTable(rows: seq<Record>) {
    forall i, j :: 0 <= i < j < |rows| ==> LexLess(rows[i].id, rows[j].id)
  }

  lemma IdsAreUnique(rows: seq<Record>, i: nat, j: nat)
    requires IsTable(rows) && i < |rows| && j < |rows| && rows[i].id == rows[j].id
    ensures i == j
  {
    LexTotal(rows[i].id, rows[j].id);
  }

  lemma BeforeIsStrict(a: Record, b: Record)
    requires Before(a, b)
    ensures a != b && !Before(b, a)
  {
    LexTotal(a.id, b.id);
  }

  /** An ordered list is determined by its members. */
  lemma {:induction false} OrderedIsUnique(a: seq<Record>, b: seq<Record>)
    requires Ordered(a) && Ordered(b)
    requires forall r :: r in a <==> r in b
    ensures a == b
  {
    if a == [] {
      assert forall k :: 0 <= k < |b| ==> b[k] in b;
    } else {
      assert forall k :: 0 <= k < |b| ==> b[k] in b;
      assert a[0] in b && b[0] in a;
      FirstsAgree(a, b);
      var x, y := a[1..], b[1..];
      forall r
        ensures r in x <==> r in y
      {
        TailMembers(a, r);
        TailMembers(b, r);
      }
      OrderedIsUnique(x, y);
      assert a == [a[0]] + x && b == [b[0]] + y;
    }
  }

  lemma FirstsAgree(a: seq<Record>, b: seq<Record>)
    requires Ordered(a) && Ordered(b) && a != [] && b != []
    requires a[0] in b && b[0] in a
    ensures a[0] == b[0]
  {
    var i :| 0 <= i < |b| && b[i] == a[0];
    var j :| 0 <= j < |a| && a[j] == b[0];
    if i > 0 && j > 0 {
      BeforeIsStrict(a[0], a[j]);
    }
  }

  lemma TailMembers(a: seq<Record>, r: Record)
    requires Ordered(a) && a != []
    ensures r in a[1..] <==> r in a && r != a[0]
  {
    if r in a[1..] {
      var k :| 0 <= k < |a| - 1 && a[1..][k] == r;
      BeforeIsStrict(a[0], a[k + 1]);
    }
  }

  // ------------------------------------------------------------------
  // Fetch
  // ------------------------------------------------------------------

  function Unpublished(rows: seq<Record>): seq<Record> {
    if rows == [] then []
    else
      var last := rows[|rows| - 1];
      if last.published then Unpublished(rows[..|rows| - 1]) else Unpublished(rows[..|rows| - 1]) + [last]
  }

  function CreatedOf(r: Record): int {
    r.createdMs
  }

  function SortByCreated(rows: seq<Record>): seq<Record> {
    SortBy(rows, CreatedOf)
  }

  lemma PlaceKeepsOrder(rows: seq<Record>, r: Record)
    requires Ordered(rows) && forall x :: x in rows ==> LexLess(x.id, r.id)
    ensures Ordered(Place(rows, CreatedOf, r)) && |Place(rows, CreatedOf, r)| == |rows| + 1
    ensures forall x :: x in Place(rows, CreatedOf, r) <==> x in rows || x == r
  {
    var k := Slot(rows, CreatedOf, r.createdMs, |rows|);
    SlotSplits(rows, CreatedOf, r.createdMs, |rows|);
    assert forall i :: 0 <= i < |rows| ==> rows[i] in rows && CreatedOf(rows[i]) == rows[i].createdMs;
    BetweenIsOrdered(rows, k, r);
  }

  /** A row put between the rows before it and the rows after it. */
  lemma BetweenIsOrdered(rows: seq<Record>, k: nat, r: Record)
    requires Ordered(rows) && k <= |rows|
    requires forall i :: 0 <= i < k ==> Before(rows[i], r)
    requires forall i :: k <= i < |rows| ==> Before(r, rows[i])
    ensures Ordered(rows[..k] + [r] + rows[k..])
    ensures forall x :: x in rows[..k] + [r] + rows[k..] <==> x in rows || x == r
  {
    assert rows == rows[..k] + rows[k..];
  }

  lemma {:induction false} UnpublishedIsTable(rows: seq<Record>)
    requires IsTable(rows)
    ensures IsTable(Unpublished(rows))
    ensures forall x :: x in Unpublished(rows) <==> x in rows && !x.published
  {
    if rows != [] {
      var front, last := rows[..|rows| - 1], rows[|rows| - 1];
      assert rows == front + [last];
      UnpublishedIsTable(front);
      var u := Unpublished(front);
      forall k | 0 <= k < |u|
        ensures LexLess(u[k].id, last.id)
      {
        assert u[k] in front;
      }
    }
  }

  lemma {:induction false} SortFirstOrders(rows: seq<Record>, n: nat)
    requires IsTable(rows) && n <= |rows|
    ensures Ordered(SortFirst(rows, CreatedOf, n)) && |SortFirst(rows, CreatedOf, n)| == n
    ensures forall x :: x in SortFirst(rows, CreatedOf, n) <==> x in rows[..n]
  {
    if n > 0 {
      SortFirstOrders(rows, n - 1);
      assert rows[..n] == rows[..n - 1] + [rows[n - 1]];
      PlaceKeepsOrder(SortFirst(rows, CreatedOf, n - 1), rows[n - 1]);
    }
  }

  /** Sorting a table puts it in delivery order and keeps its rows. */
  lemma SortOrders(rows: seq<Record>)
    requires IsTable(rows)
    ensures Ordered(SortByCreated(rows)) && |SortByCreated(rows)| == |rows|
    ensures forall x :: x in SortByCreated(rows) <==> x in rows
  {
    SortFirstOrders(rows, |rows|);
    assert rows[..|rows|] == rows;
  }

  /** All rows waiting, in delivery order. */
  function Backlog(rows: seq<Record>): seq<Record> {
    SortByCreated(Unpublished(rows))
  }

  function Truncate(rows: seq<Record>, limit: nat): seq<Record> {
    if limit < |rows| then rows[..limit] else rows
  }

  function Fetch(rows: seq<Record>, limit: nat): seq<Record> {
    Truncate(Backlog(rows), limit)
  }

  /** The waiting rows of a table, in delivery order: there is only one such list. */
  ghost predicate IsBacklog(rows: seq<Record>, waiting: seq<Record>) {
    Ordered(waiting) && forall x :: x in waiting <==> x in rows && !x.published
  }

  lemma BacklogIsOrdered(rows: seq<Record>)
    requires IsTable(rows)
    ensures IsBacklog(rows, Backlog(rows)) && |Backlog(rows)| == |Unpublished(rows)|
  {
    UnpublishedIsTable(rows);
    SortOrders(Unpublished(rows));
  }

  /** In delivery order, only waiting rows, and every waiting row left out comes after every row taken. */
  ghost predicate IsEarliest(rows: seq<Record>, batch: seq<Record>) {
    && Ordered(batch)
    && (forall x :: x in batch ==> x in rows && !x.published)
    && (forall x, y :: x in batch && y in rows && !y.published && y !in batch ==> Before(x, y))
  }

  /** A batch is the earliest waiting rows, as many as the limit allows. */
  lemma FetchIsEarliest(rows: seq<Record>, limit: nat)
    requires IsTable(rows)
    ensures IsEarliest(rows, Fetch(rows, limit))
    ensures |Fetch(rows, limit)| == if limit < |Unpublished(rows)| then limit else |Unpublished(rows)|
  {
    BacklogIsOrdered(rows);
    FrontIsEarliest(rows, Backlog(rows), limit);
  }

  lemma FrontIsEarliest(rows: seq<Record>, all: seq<Record>, limit: nat)
    requires IsBacklog(rows, all)
    ensures IsEarliest(rows, Truncate(all, limit))
  {
    var batch := Truncate(all, limit);
    assert forall x :: x in batch ==> x in all;
    forall x, y | x in batch && y in rows && !y.published && y !in batch
      ensures Before(x, y)
    {
      var i :| 0 <= i < |batch| && batch[i] == x;
      var j :| 0 <= j < |all| && all[j] == y;
      assert forall k :: 0 <= k < |batch| ==> batch[k] in batch && batch[k] == all[k];
    }
  }

  // ------------------------------------------------------------------
  // Insert and mark
  // ------------------------------------------------------------------

  /** Inserting into the ordered table; a row with the same id is replaced. */
  function Put(rows: seq<Record>, r: Record): seq<Record> {
    PutByKey(rows, IdOf, r)
  }

  lemma PutKeepsTable(rows: seq<Record>, r: Record)
    requires IsTable(rows)
    ensures IsTable(Put(rows, r))
    ensures forall x :: x in Put(rows, r) <==> x == r || (x in rows && x.id != r.id)
  {
    PutKeepsOrder(rows, IdOf, r);
    assert forall i, j :: 0 <= i < j < |Put(rows, r)| ==> LexLess(IdOf(Put(rows, r)[i]), IdOf(Put(rows, r)[j]));
  }

  function IndexOf(rows: seq<Record>, id: string): (r: Option<nat>)
    ensures r.Some? ==> r.value < |rows| && rows[r.value].id == id
    ensures r.None? ==> !Has(rows, id)
  {
    if rows == [] then None
    else if rows[|rows| - 1].id == id then Some(|rows| - 1)
    else
      assert rows == rows[..|rows| - 1] + [rows[|rows| - 1]];
      IndexOf(rows[..|rows| - 1], id)
  }

  ghost predicate Has(rows: seq<Record>, id: string) {
    exists k :: 0 <= k < |rows| && rows[k].id == id
  }

  /** The table with the rows of these ids marked published. */
  ghost function Marked(rows: seq<Record>, ids: seq<string>): seq<Record> {
    seq(|rows|, k requires 0 <= k < |rows| => if rows[k].id in ids then rows[k].(published := true) else rows[k])
  }

  /** How many ids come before the first unknown one. */
  ghost function KnownCount(rows: seq<Record>, ids: seq<string>): (n: nat)
    ensures n <= |ids|
    ensures forall k :: 0 <= k < n ==> Has(rows, ids[k])
    ensures n < |ids| ==> !Has(rows, ids[n])
  {
    if ids == [] || !Has(rows, ids[0]) then 0 else 1 + KnownCount(rows, ids[1..])
  }

  lemma MarkOneMore(rows: seq<Record>, ids: seq<string>, n: nat, k: nat)
    requires IsTable(rows) && n < |ids| && k < |rows| && rows[k].id == ids[n]
    ensures Marked(rows, ids[..n])[k := Marked(rows, ids[..n])[k].(published := true)] == Marked(rows, ids[..n + 1])
  {
    assert ids[..n + 1] == ids[..n] + [ids[n]];
    forall j | 0 <= j < |rows| && rows[j].id == ids[n]
      ensures j == k
    {
      IdsAreUnique(rows, j, k);
    }
  }

  class MemoryOutbox {
    var rows: seq<Record>

    ghost predicate Valid()
      reads this
    {
      IsTable(rows)
    }

    constructor ()
      ensures Valid() && rows == []
    {
      rows := [];
    }

    method Insert(r: Record) returns (stored: Record)
      requires Valid()
      modifies this
      ensures Valid() && stored == r
      ensures forall x :: x in rows <==> x == r || (x in old(rows) && x.id != r.id)
    {
      PutKeepsTable(rows, r);
      rows := Put(rows, r);
      stored := r;
    }

    method FetchUnpublished(limit: nat) returns (batch: seq<Record>)
      ensures batch == Fetch(rows, limit)
    {
      batch := SortByCreated(Unpublished(rows));
      if limit < |batch| {
        batch := batch[..limit];
      }
    }

    /** Marks in order; an unknown id stops it, and what was marked before stays marked. */
    method MarkPublished(ids: seq<string>) returns (r: Result<(), Error>)
      requires Valid()
      modifies this
      ensures Valid()
      ensures var n := KnownCount(old(rows), ids);
              && rows == Marked(old(rows), ids[..n])
              && r == if n == |ids| then Ok(()) else Err(NotFound(ids[n]))
    {
      ghost var before := rows;
      assert rows == Marked(before, ids[..0]);
      for n := 0 to |ids|
        invariant rows == Marked(before, ids[..n]) && n <= KnownCount(before, ids)
      {
        var found := IndexOf(rows, ids[n]);
        assert forall k :: 0 <= k < |rows| ==> rows[k].id == before[k].id;
        if found.None? {
          assert !Has(before, ids[n]);
          return Err(NotFound(ids[n]));
        }
        MarkOneMore(before, ids, n, found.value);
        assert Has(before, ids[n]);
        rows := rows[found.value := rows[found.value].(published := true)];
      }
      r := Ok(());
    }

    method UnpublishedCount() returns (n: nat)
      requires Valid()
      ensures n == |Backlog(rows)|
    {
      BacklogIsOrdered(rows);
      n := |Unpublished(rows)|;
    }
  }
}
