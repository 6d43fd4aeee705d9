/**
  The outbox relay: one relay by itself, and any number of relays and inserts
  interleaved. Each table operation is atomic; publishing happens between them.
 */
module OutboxRelay {
  import opened Results
  import opened Options
  import opened Outbox
  import opened Sorting

  function IdsOf(batch: seq<Record>): seq<string> {
    seq(|batch|, k requires 0 <= k < |batch| => batch[k].id)
  }

  /** How many rows are published before the first failure. */
  ghost function SentCount(publish: Record -> Result<(), Error>, batch: seq<Record>): (n: nat)
    ensures n <= |batch|
    ensures forall k :: 0 <= k < n ==> publish(batch[k]).Ok?
    ensures n < |batch| ==> publish(batch[n]).Err?
  {
    if batch == [] || publish(batch[0]).Err? then 0 else 1 + SentCount(publish, batch[1..])
  }

  /** Publishes the rows in order until one fails, collecting the ids of those published. */
  method PublishAll(publish: Record -> Result<(), Error>,
                    batch: seq<Record>) returns (r: Result<seq<string>, Error>, sent: seq<Record>)
    ensures var n := SentCount(publish, batch);
            sent == batch[..n] && r == if n == |batch| then Ok(IdsOf(batch)) else Err(publish(batch[n]).error)
  {
    sent := [];
    var ids: seq<string> := [];
    for k := 0 to |batch|
      invariant sent == batch[..k] && ids == IdsOf(sent) && k <= SentCount(publish, batch)
    {
      var outcome := publish(batch[k]);
      if outcome.Err? {
        return Err(outcome.error), sent;
      }
      sent, ids := sent + [batch[k]], ids + [batch[k].id];
    }
    assert batch[..|batch|] == batch;
    r := Ok(ids);
  }

  /** Fetch, publish each row, then mark them all; a failed publish marks nothing. */
  method RelayOutbox(outbox: MemoryOutbox, limit: nat, publish: Record -> Result<(), Error>)
    returns (r: Result<nat, Error>, sent: seq<Record>)
    requires outbox.Valid()
    modifies outbox
    ensures outbox.Valid()
    ensures var batch := Fetch(old(outbox.rows), limit);
            var n := SentCount(publish, batch);
            && sent == batch[..n]
            && (n == |batch| ==> r == Ok(n) && outbox.rows == Marked(old(outbox.rows), IdsOf(batch)))
            && (n < |batch| ==> r == Err(publish(batch[n]).error) && outbox.rows == old(outbox.rows))
  {
    var batch := outbox.FetchUnpublished(limit);
    if batch == [] {
      return Ok(0), [];
    }
    var published;
    published, sent := PublishAll(publish, batch);
    match published {
      case Err(e) => r := Err(e);
      case Ok(ids) =>
        FetchIsEarliest(outbox.rows, limit);
        BatchIsKnown(outbox.rows, batch);
        assert ids[..|ids|] == ids;
        var marked := outbox.MarkPublished(ids);
        match marked {
          case Ok(_) => r := Ok(|ids|);
          case Err(e) => r := Err(e);
        }
    }
  }

  /** Marking rows that are in the table meets no unknown id. */
  lemma BatchIsKnown(rows: seq<Record>, batch: seq<Record>)
    requires forall x :: x in batch ==> Has(rows, x.id)
    ensures KnownCount(rows, IdsOf(batch)) == |batch|
  {
    assert forall k :: 0 <= k < |batch| ==> batch[k] in batch && IdsOf(batch)[k] == batch[k].id;
  }

  // ------------------------------------------------------------------
  // Successive relays
  // ------------------------------------------------------------------

  /** The table after one relay whose publishes succeed. */
  ghost function Relayed(rows: seq<Record>, limit: nat): seq<Record> {
    Marked(rows, IdsOf(Fetch(rows, limit)))
  }

  /** A relay takes exactly its batch off the backlog. */
  lemma BacklogAfterRelay(rows: seq<Record>, limit: nat)
    requires IsTable(rows)
    ensures IsTable(Relayed(rows, limit))
    ensures Backlog(Relayed(rows, limit)) == Backlog(rows)[|Fetch(rows, limit)|..]
    ensures Fetch(rows, limit) == Backlog(rows)[..|Fetch(rows, limit)|]
    ensures |Fetch(rows, limit)| == Least(limit, |Backlog(rows)|)
  {
    BacklogIsOrdered(rows);
    MarkedKeepsTable(rows, IdsOf(Fetch(rows, limit)));
    BacklogIsOrdered(Relayed(rows, limit));
    LeftWaiting(rows, Backlog(rows), limit, Backlog(Relayed(rows, limit)));
  }

  lemma MarkedKeepsTable(rows: seq<Record>, ids: seq<string>)
    requires IsTable(rows)
    ensures IsTable(Marked(rows, ids))
  {
    assert forall k :: 0 <= k < |rows| ==> Marked(rows, ids)[k].id == rows[k].id;
  }

  lemma LeftWaiting(rows: seq<Record>, all: seq<Record>, limit: nat, waiting: seq<Record>)
    requires IsTable(rows) && IsBacklog(rows, all)
    requires IsBacklog(Marked(rows, IdsOf(Truncate(all, limit))), waiting)
    ensures waiting == all[|Truncate(all, limit)|..]
  {
    var batch := Truncate(all, limit);
    var rest := all[|batch|..];
    assert all == batch + rest;
    forall x
      ensures x in waiting <==> x in rest
    {
      StillWaiting(rows, batch, rest, x);
    }
    OrderedIsUnique(waiting, rest);
  }

  lemma StillWaiting(rows: seq<Record>, batch: seq<Record>, rest: seq<Record>, x: Record)
    requires IsTable(rows) && Ordered(batch + rest)
    requires forall y :: y in batch + rest <==> y in rows && !y.published
    ensures (x in Marked(rows, IdsOf(batch)) && !x.published) <==> x in rest
  {
    var after := Marked(rows, IdsOf(batch));
    if x in after && !x.published {
      var k :| 0 <= k < |after| && after[k] == x;
      assert x == rows[k] && x in rows && x in batch + rest;
      assert forall j :: 0 <= j < |batch| ==> IdsOf(batch)[j] == batch[j].id;
      assert forall y :: y in batch ==> y.id in IdsOf(batch);
    }
    if x in rest {
      assert x in batch + rest && x in rows && !x.published;
      var k :| 0 <= k < |rows| && rows[k] == x;
      if x.id in IdsOf(batch) {
        var j :| 0 <= j < |batch| && IdsOf(batch)[j] == x.id;
        assert batch[j] in batch + rest && batch[j] in rows;
        var i :| 0 <= i < |rows| && rows[i] == batch[j];
        IdsAreUnique(rows, i, k);
        var m :| 0 <= m < |rest| && rest[m] == x;
        assert (batch + rest)[j] == x && (batch + rest)[|batch| + m] == x;
        BeforeIsStrict((batch + rest)[j], (batch + rest)[|batch| + m]);
      }
      assert after[k] == x;
    }
  }

  /** A table after a number of relays one after another, and all they sent, when every publish succeeds. */
  datatype Drain = Drain(rows: seq<Record>, sent: seq<Record>)

  ghost function Drained(rows: seq<Record>, limit: nat, n: nat): Drain {
    if n == 0 then Drain(rows, [])
    else
      var before := Drained(rows, limit, n - 1);
      Drain(Relayed(before.rows, limit), before.sent + Fetch(before.rows, limit))
  }

  /**
    Relays one after another send every waiting row once, in delivery order across
    batches, and `n` of them take `n * limit` rows off the backlog or empty it.
   */
  lemma {:induction false} RelaysDrainInOrder(rows: seq<Record>, limit: nat, n: nat)
    requires IsTable(rows)
    ensures IsTable(Drained(rows, limit, n).rows)
    ensures Drained(rows, limit, n).sent + Backlog(Drained(rows, limit, n).rows) == Backlog(rows)
    ensures |Drained(rows, limit, n).sent| == Least(n * limit, |Backlog(rows)|)
  {
    if n == 0 {
      assert [] + Backlog(rows) == Backlog(rows);
    } else {
      RelaysDrainInOrder(rows, limit, n - 1);
      var before := Drained(rows, limit, n - 1);
      BacklogAfterRelay(before.rows, limit);
      BatchNext(Backlog(rows), before.sent, Backlog(before.rows), Fetch(before.rows, limit));
      ShareOfLast(limit, n, |Backlog(rows)|);
    }
  }

  lemma ShareOfLast(limit: nat, n: nat, total: nat)
    requires n > 0
    ensures var share := Least((n - 1) * limit, total);
            share + Least(limit, total - share) == Least(n * limit, total)
  {
    assert n * limit == (n - 1) * limit + limit;
  }

  lemma BatchNext(all: seq<Record>, sent: seq<Record>, waiting: seq<Record>, batch: seq<Record>)
    requires sent + waiting == all && |batch| <= |waiting| && batch == waiting[..|batch|]
    ensures sent + batch + waiting[|batch|..] == all
  {
    assert waiting == batch + waiting[|batch|..];
    assert sent + (batch + waiting[|batch|..]) == sent + batch + waiting[|batch|..];
  }

  function Least(a: nat, b: nat): nat {
    if a < b then a else b
  }

  // ------------------------------------------------------------------
  // Interleaved relays and inserts
  // ------------------------------------------------------------------

  datatype Status = Running | Finished(result: Result<nat, Error>)

  datatype Relay = Relay(batch: seq<Record>, sent: nat, status: Status)

  /** The table, the relays so far, and every row handed over to the outside. */
  datatype State = State(rows: seq<Record>, relays: map<nat, Relay>, delivered: seq<Record>)

  datatype Step = Insert(record: Record) | Begin(relay: nat, limit: nat)
                | PublishNext(relay: nat, failure: Option<Error>) | Mark(relay: nat)

  predicate IsRunning(s: State, relay: nat) {
    relay in s.relays && s.relays[relay].status == Running
  }

  ghost predicate Enabled(s: State, step: Step) {
    match step
    case Insert(r) => !r.published && !Has(s.rows, r.id)
    case Begin(relay, _) => relay !in s.relays
    case PublishNext(relay, _) => IsRunning(s, relay) && s.relays[relay].sent < |s.relays[relay].batch|
    case Mark(relay) => IsRunning(s, relay) && s.relays[relay].sent == |s.relays[relay].batch|
  }

  function Started(batch: seq<Record>): Relay {
    Relay(batch, 0, if batch == [] then Finished(Ok(0)) else Running)
  }

  ghost function MarkResult(rows: seq<Record>, ids: seq<string>): Result<nat, Error> {
    var n := KnownCount(rows, ids);
    if n == |ids| then Ok(n) else Err(NotFound(ids[n]))
  }

  ghost function Apply(s: State, step: Step): State
    requires Enabled(s, step)
  {
    match step
    case Insert(r) => s.(rows := Put(s.rows, r))
    case Begin(relay, limit) => s.(relays := s.relays[relay := Started(Fetch(s.rows, limit))])
    case PublishNext(relay, failure) =>
      var w := s.relays[relay];
      if failure.Some? then s.(relays := s.relays[relay := w.(status := Finished(Err(failure.value)))])
      else s.(relays := s.relays[relay := w.(sent := w.sent + 1)], delivered := s.delivered + [w.batch[w.sent]])
    case Mark(relay) =>
      var ids := IdsOf(s.relays[relay].batch);
      s.(rows := Marked(s.rows, ids[..KnownCount(s.rows, ids)]),
         relays := s.relays[relay := s.relays[relay].(status := Finished(MarkResult(s.rows, ids)))])
  }

  ghost predicate IsRun(states: seq<State>, steps: seq<Step>) {
    && |states| == |steps| + 1
    && states[0] == State([], map[], [])
    && forall k {:trigger steps[k]} :: 0 <= k < |steps| ==>
         Enabled(states[k], steps[k]) && states[k + 1] == Apply(states[k], steps[k])
  }

  /** The row is in the table, marked or not. */
  ghost predicate InTable(rows: seq<Record>, r: Record) {
    r in rows || r.(published := true) in rows
  }

  ghost predicate MarkedAreDelivered(s: State) {
    forall r :: r in s.rows && r.published ==> r.(published := false) in s.delivered
  }

  ghost predicate RelayOk(s: State, w: Relay) {
    && w.sent <= |w.batch| && Ordered(w.batch)
    && (forall r :: r in w.batch ==> !r.published && InTable(s.rows, r))
    && (forall r :: r in w.batch[..w.sent] ==> r in s.delivered)
    && (w.status.Finished? ==> (w.status.result == Ok(|w.batch|) <==> w.sent == |w.batch|))
    && (w.status.Finished? && w.sent < |w.batch| ==> w.status.result.Err?)
  }

  ghost predicate Inv(s: State) {
    IsTable(s.rows) && MarkedAreDelivered(s) && forall k :: k in s.relays ==> RelayOk(s, s.relays[k])
  }

  /** Rows stay, and so does everything delivered; a row changes only by being marked. */
  ghost predicate Extends(s: State, t: State) {
    && (forall r :: InTable(s.rows, r) ==> InTable(t.rows, r))
    && (forall r :: r in s.delivered ==> r in t.delivered)
  }

  lemma InsertKeepsInv(s: State, r: Record)
    requires Inv(s) && Enabled(s, Insert(r))
    ensures Inv(Apply(s, Insert(r))) && Extends(s, Apply(s, Insert(r)))
  {
    PutKeepsTable(s.rows, r);
    assert forall x :: x in s.rows ==> x.id != r.id;
  }

  lemma BeginKeepsInv(s: State, relay: nat, limit: nat)
    requires Inv(s) && Enabled(s, Begin(relay, limit))
    ensures Inv(Apply(s, Begin(relay, limit))) && Extends(s, Apply(s, Begin(relay, limit)))
  {
    FetchIsEarliest(s.rows, limit);
  }

  /** A relay that finds nothing waiting is done at once, with nothing relayed. */
  lemma NothingToRelay(s: State, relay: nat, limit: nat)
    requires Inv(s) && Enabled(s, Begin(relay, limit))
    ensures var t := Apply(s, Begin(relay, limit));
            t.relays[relay].status == Finished(Ok(0)) <==> limit == 0 || forall r :: r in s.rows ==> r.published
  {
    FetchIsEarliest(s.rows, limit);
    UnpublishedIsTable(s.rows);
    if Unpublished(s.rows) != [] {
      assert Unpublished(s.rows)[0] in Unpublished(s.rows);
    }
  }

  lemma PublishKeepsInv(s: State, relay: nat, failure: Option<Error>)
    requires Inv(s) && Enabled(s, PublishNext(relay, failure))
    ensures Inv(Apply(s, PublishNext(relay, failure))) && Extends(s, Apply(s, PublishNext(relay, failure)))
  {
    var t, w := Apply(s, PublishNext(relay, failure)), s.relays[relay];
    assert RelayOk(s, w);
    if failure.None? {
      assert w.batch[..w.sent + 1] == w.batch[..w.sent] + [w.batch[w.sent]];
    }
    assert RelayOk(t, t.relays[relay]);
  }

  lemma MarkKeepsInv(s: State, relay: nat)
    requires Inv(s) && Enabled(s, Mark(relay))
    ensures Inv(Apply(s, Mark(relay))) && Extends(s, Apply(s, Mark(relay)))
    ensures Apply(s, Mark(relay)).relays[relay].status == Finished(Ok(|s.relays[relay].batch|))
  {
    var w := s.relays[relay];
    assert RelayOk(s, w);
    forall r | r in w.batch
      ensures Has(s.rows, r.id)
    {
      assert InTable(s.rows, r);
      var k :| 0 <= k < |s.rows| && (s.rows[k] == r || s.rows[k] == r.(published := true));
    }
    BatchIsKnown(s.rows, w.batch);
    var ids := IdsOf(w.batch);
    assert ids[..|ids|] == ids;
    MarkTable(s.rows, w.batch, s.delivered);
  }

  /** Marking delivered rows of the table keeps marked rows delivered. */
  lemma MarkTable(rows: seq<Record>, batch: seq<Record>, delivered: seq<Record>)
    requires IsTable(rows)
    requires forall r :: r in rows && r.published ==> r.(published := false) in delivered
    requires forall r :: r in batch ==> !r.published && InTable(rows, r) && r in delivered
    ensures IsTable(Marked(rows, IdsOf(batch)))
    ensures forall r :: r in Marked(rows, IdsOf(batch)) && r.published ==> r.(published := false) in delivered
    ensures forall r :: InTable(rows, r) ==> InTable(Marked(rows, IdsOf(batch)), r)
  {
    var after := Marked(rows, IdsOf(batch));
    assert forall k :: 0 <= k < |rows| ==> after[k].id == rows[k].id;
    forall r | r in after && r.published
      ensures r.(published := false) in delivered
    {
      var k :| 0 <= k < |after| && after[k] == r;
      if !rows[k].published {
        var j :| 0 <= j < |batch| && IdsOf(batch)[j] == rows[k].id;
        MarkedRowIsItsBatchRow(rows, k, batch[j]);
        assert batch[j] in batch;
      } else {
        assert rows[k] in rows;
      }
    }
    forall r | InTable(rows, r)
      ensures InTable(after, r)
    {
      var k :| 0 <= k < |rows| && (rows[k] == r || rows[k] == r.(published := true));
      assert after[k] in after;
    }
  }

  lemma MarkedRowIsItsBatchRow(rows: seq<Record>, k: nat, r: Record)
    requires IsTable(rows) && k < |rows| && InTable(rows, r) && !r.published && r.id == rows[k].id && !rows[k].published
    ensures rows[k] == r
  {
    var i :| 0 <= i < |rows| && (rows[i] == r || rows[i] == r.(published := true));
    IdsAreUnique(rows, i, k);
  }

  lemma StepKeepsInv(s: State, step: Step)
    requires Inv(s) && Enabled(s, step)
    ensures Inv(Apply(s, step)) && Extends(s, Apply(s, step))
  {
    match step {
      case Insert(r) => InsertKeepsInv(s, r);
      case Begin(relay, limit) => BeginKeepsInv(s, relay, limit);
      case PublishNext(relay, failure) => PublishKeepsInv(s, relay, failure);
      case Mark(relay) => MarkKeepsInv(s, relay);
    }
  }

  lemma {:induction false} EveryStateIsSound(states: seq<State>, steps: seq<Step>, n: nat)
    requires IsRun(states, steps) && n < |states|
    ensures Inv(states[n])
  {
    if n > 0 {
      EveryStateIsSound(states, steps, n - 1);
      assert states[n - 1 + 1] == Apply(states[n - 1], steps[n - 1]);
      StepKeepsInv(states[n - 1], steps[n - 1]);
    }
  }

  /** Step `m` hands this row over successfully. */
  ghost predicate Delivers(states: seq<State>, steps: seq<Step>, m: nat, r: Record) {
    && m < |steps| && m < |states| && steps[m].PublishNext? && steps[m].failure == None
    && steps[m].relay in states[m].relays
    && var w := states[m].relays[steps[m].relay]; w.sent < |w.batch| && w.batch[w.sent] == r
  }

  lemma {:induction false} DeliveredByAStep(states: seq<State>, steps: seq<Step>, n: nat, r: Record)
    returns (m: nat)
    requires IsRun(states, steps) && n < |states| && r in states[n].delivered
    ensures m < n && Delivers(states, steps, m, r)
  {
    assert n > 0;
    assert states[n - 1 + 1] == Apply(states[n - 1], steps[n - 1]);
    if r in states[n - 1].delivered {
      m := DeliveredByAStep(states, steps, n - 1, r);
    } else {
      m := n - 1;
    }
  }

  /**
    Main theorem: over every interleaving, a row is marked published only after some
    relay published that very row successfully.
   */
  lemma MarkedOnlyAfterDelivery(states: seq<State>, steps: seq<Step>, n: nat, r: Record)
    returns (m: nat)
    requires IsRun(states, steps) && n < |states| && r in states[n].rows && r.published
    ensures m < n && Delivers(states, steps, m, r.(published := false))
  {
    EveryStateIsSound(states, steps, n);
    m := DeliveredByAStep(states, steps, n, r.(published := false));
  }

  /** Step `m` marks this id, as part of a batch that was published in full. */
  ghost predicate MarksInFullBatch(states: seq<State>, steps: seq<Step>, m: nat, id: string) {
    && m < |steps| && m < |states| && steps[m].Mark? && steps[m].relay in states[m].relays
    && var w := states[m].relays[steps[m].relay]; w.sent == |w.batch| && id in IdsOf(w.batch)
  }

  lemma {:induction false} MarkedWithItsWholeBatch(states: seq<State>, steps: seq<Step>, n: nat, r: Record)
    returns (m: nat)
    requires IsRun(states, steps) && n < |states| && r in states[n].rows && r.published
    ensures m < n && MarksInFullBatch(states, steps, m, r.id)
  {
    assert n > 0;
    var s, step := states[n - 1], steps[n - 1];
    assert states[n - 1 + 1] == Apply(s, step);
    if r in s.rows {
      m := MarkedWithItsWholeBatch(states, steps, n - 1, r);
    } else {
      m := n - 1;
      if step.Insert? {
        EveryStateIsSound(states, steps, n - 1);
        PutKeepsTable(s.rows, step.record);
      } else {
        var k :| 0 <= k < |states[n].rows| && states[n].rows[k] == r;
      }
    }
  }

  lemma {:induction false} FinishedIsFinal(states: seq<State>, steps: seq<Step>, m: nat, n: nat, relay: nat)
    requires IsRun(states, steps) && m <= n < |states|
    requires relay in states[m].relays && states[m].relays[relay].status.Finished?
    ensures relay in states[n].relays && states[n].relays[relay] == states[m].relays[relay]
  {
    if m < n {
      FinishedIsFinal(states, steps, m, n - 1, relay);
      assert states[n - 1 + 1] == Apply(states[n - 1], steps[n - 1]);
    }
  }

  /** A relay with a failed publish never marks, neither before nor after. */
  lemma FailedRelayNeverMarks(states: seq<State>, steps: seq<Step>, n: nat, relay: nat, k: nat)
    requires IsRun(states, steps) && n < |states| && relay in states[n].relays
    requires states[n].relays[relay].status.Finished? && states[n].relays[relay].status.result.Err?
    requires k < |steps|
    ensures steps[k] != Mark(relay)
  {
    assert states[k + 1] == Apply(states[k], steps[k]) && Enabled(states[k], steps[k]);
    if steps[k] == Mark(relay) {
      EveryStateIsSound(states, steps, k);
      MarkKeepsInv(states[k], relay);
      if n <= k {
        FinishedIsFinal(states, steps, n, k, relay);
      } else {
        FinishedIsFinal(states, steps, k + 1, n, relay);
      }
    }
  }

  /** Marking the batch of a relay never meets an unknown id, whatever ran in between. */
  lemma MarkNeverMisses(states: seq<State>, steps: seq<Step>, k: nat)
    requires IsRun(states, steps) && k < |steps| && steps[k].Mark?
    ensures states[k + 1].relays[steps[k].relay].status == Finished(Ok(|states[k].relays[steps[k].relay].batch|))
  {
    assert states[k + 1] == Apply(states[k], steps[k]) && Enabled(states[k], steps[k]);
    EveryStateIsSound(states, steps, k);
    MarkKeepsInv(states[k], steps[k].relay);
  }

  // ------------------------------------------------------------------
  // When every row is delivered once
  // ------------------------------------------------------------------

  /** The rows a relay has taken and not marked: all of its batch while it runs, what it sent when it failed. */
  function Held(w: Relay): seq<Record>
    requires w.sent <= |w.batch|
  {
    if w.status == Running then w.batch else if w.status.result.Err? then w.batch[..w.sent] else []
  }

  ghost predicate IsHeld(s: State, k: nat, r: Record) {
    k in s.relays && s.relays[k].sent <= |s.relays[k].batch| && r in Held(s.relays[k])
  }

  /** A relay that begins takes no row another relay holds. */
  ghost predicate IsQuiet(s: State, step: Step) {
    step.Begin? ==> forall k, r :: r in Fetch(s.rows, step.limit) ==> !IsHeld(s, k, r)
  }

  ghost predicate QuietRun(states: seq<State>, steps: seq<Step>) {
    IsRun(states, steps) && forall k {:trigger steps[k]} :: 0 <= k < |steps| ==> IsQuiet(states[k], steps[k])
  }

  ghost predicate DeliveredOnce(s: State) {
    forall r :: multiset(s.delivered)[r] <= 1
  }

  ghost predicate HoldsAreDisjoint(s: State) {
    forall k, l, r :: IsHeld(s, k, r) && IsHeld(s, l, r) ==> k == l
  }

  /** The row is marked, or a relay that has sent it still holds it. */
  ghost predicate IsAccounted(s: State, r: Record) {
    r.(published := true) in s.rows || exists k: nat :: SentBy(s, k, r)
  }

  ghost predicate SentBy(s: State, k: nat, r: Record) {
    k in s.relays && s.relays[k].sent <= |s.relays[k].batch| && r in s.relays[k].batch[..s.relays[k].sent]
    && IsHeld(s, k, r)
  }

  ghost predicate RunningIsUnmarked(s: State) {
    forall k, r :: k in s.relays && s.relays[k].status == Running && r in s.relays[k].batch ==> r in s.rows
  }

  ghost predicate Once(s: State) {
    && Inv(s) && DeliveredOnce(s) && HoldsAreDisjoint(s) && RunningIsUnmarked(s)
    && forall r :: r in s.delivered ==> !r.published && InTable(s.rows, r) && IsAccounted(s, r)
  }

  /** A table holds one row per id, marked or not. */
  lemma OneRowPerId(rows: seq<Record>, a: Record, b: Record)
    requires IsTable(rows) && InTable(rows, a) && InTable(rows, b) && a.id == b.id && !a.published && !b.published
    ensures a == b && !(a in rows && a.(published := true) in rows)
  {
    var i :| 0 <= i < |rows| && (rows[i] == a || rows[i] == a.(published := true));
    var j :| 0 <= j < |rows| && (rows[j] == b || rows[j] == b.(published := true));
    IdsAreUnique(rows, i, j);
    if a in rows && a.(published := true) in rows {
      var k :| 0 <= k < |rows| && rows[k] == a;
      var l :| 0 <= l < |rows| && rows[l] == a.(published := true);
      IdsAreUnique(rows, k, l);
    }
  }

  lemma AccountedStays(s: State, t: State, r: Record)
    requires IsAccounted(s, r)
    requires r.(published := true) in s.rows ==> r.(published := true) in t.rows
    requires forall k: nat :: SentBy(s, k, r) ==> IsAccounted(t, r)
    ensures IsAccounted(t, r)
  {
  }

  lemma InsertKeepsOnce(s: State, r: Record)
    requires Once(s) && Enabled(s, Insert(r))
    ensures Once(Apply(s, Insert(r)))
  {
    var t := Apply(s, Insert(r));
    InsertKeepsInv(s, r);
    PutKeepsTable(s.rows, r);
    assert forall x :: x in s.rows ==> x.id != r.id && x in t.rows;
    assert forall k, x :: IsHeld(t, k, x) <==> IsHeld(s, k, x);
    forall x | x in t.delivered
      ensures IsAccounted(t, x)
    {
      assert forall k: nat :: SentBy(s, k, x) ==> SentBy(t, k, x);
      AccountedStays(s, t, x);
    }
  }

  lemma NewHoldIsApart(s: State, t: State, relay: nat, batch: seq<Record>)
    requires HoldsAreDisjoint(s) && relay !in s.relays && t.relays == s.relays[relay := Started(batch)]
    requires forall k, x :: x in batch ==> !IsHeld(s, k, x)
    ensures HoldsAreDisjoint(t)
  {
    assert forall k, x :: IsHeld(t, k, x) ==> if k == relay then x in batch else IsHeld(s, k, x);
  }

  lemma BeginKeepsOnce(s: State, relay: nat, limit: nat)
    requires Once(s) && Enabled(s, Begin(relay, limit)) && IsQuiet(s, Begin(relay, limit))
    ensures Once(Apply(s, Begin(relay, limit)))
  {
    var t, batch := Apply(s, Begin(relay, limit)), Fetch(s.rows, limit);
    BeginKeepsInv(s, relay, limit);
    FetchIsEarliest(s.rows, limit);
    NewHoldIsApart(s, t, relay, batch);
    forall x | x in t.delivered
      ensures IsAccounted(t, x)
    {
      assert forall k: nat :: SentBy(s, k, x) ==> SentBy(t, k, x);
      AccountedStays(s, t, x);
    }
  }

  /** The next row of a running relay has not been delivered. */
  lemma NextIsNew(s: State, relay: nat)
    requires Once(s) && IsRunning(s, relay) && s.relays[relay].sent < |s.relays[relay].batch|
    ensures s.relays[relay].batch[s.relays[relay].sent] !in s.delivered
  {
    var w := s.relays[relay];
    var r := w.batch[w.sent];
    assert RelayOk(s, w) && r in w.batch && IsHeld(s, relay, r) && r in s.rows;
    OneRowPerId(s.rows, r, r);
    forall k: nat
      ensures !SentBy(s, k, r)
    {
      forall j | 0 <= j < w.sent
        ensures w.batch[j] != r
      {
        BeforeIsStrict(w.batch[j], r);
      }
    }
  }

  lemma FailureKeepsOnce(s: State, relay: nat, failure: Option<Error>)
    requires Once(s) && Enabled(s, PublishNext(relay, failure)) && failure.Some?
    ensures Once(Apply(s, PublishNext(relay, failure)))
  {
    var t := Apply(s, PublishNext(relay, failure));
    PublishKeepsInv(s, relay, failure);
    assert RelayOk(s, s.relays[relay]);
    HoldsShrink(s, t, relay);
    forall x | x in t.delivered
      ensures IsAccounted(t, x)
    {
      assert forall k: nat :: SentBy(s, k, x) ==> SentBy(t, k, x);
      AccountedStays(s, t, x);
    }
  }

  lemma SuccessKeepsOnce(s: State, relay: nat)
    requires Once(s) && Enabled(s, PublishNext(relay, None))
    ensures Once(Apply(s, PublishNext(relay, None)))
  {
    var t, w := Apply(s, PublishNext(relay, None)), s.relays[relay];
    var r := w.batch[w.sent];
    PublishKeepsInv(s, relay, None);
    NextIsNew(s, relay);
    assert RelayOk(s, w) && r in w.batch;
    assert w.batch[..w.sent + 1] == w.batch[..w.sent] + [r];
    assert forall k, x :: IsHeld(t, k, x) <==> IsHeld(s, k, x);
    OneMoreDelivered(s.delivered, r);
    forall x | x in t.delivered
      ensures IsAccounted(t, x)
    {
      if x == r {
        assert SentBy(t, relay, r);
      } else {
        SentStays(s, t, relay, x);
        AccountedStays(s, t, x);
      }
    }
  }

  lemma OneMoreDelivered(delivered: seq<Record>, r: Record)
    requires r !in delivered && forall x :: multiset(delivered)[x] <= 1
    ensures forall x :: multiset(delivered + [r])[x] <= 1
  {
  }

  lemma SentStays(s: State, t: State, relay: nat, x: Record)
    requires relay in s.relays && s.relays[relay].sent < |s.relays[relay].batch|
    requires t.relays == s.relays[relay := s.relays[relay].(sent := s.relays[relay].sent + 1)]
    requires forall k :: IsHeld(s, k, x) ==> IsHeld(t, k, x)
    ensures forall k: nat :: SentBy(s, k, x) ==> SentBy(t, k, x)
  {
    var w := s.relays[relay];
    assert w.batch[..w.sent + 1] == w.batch[..w.sent] + [w.batch[w.sent]];
  }

  lemma MarkTakesTheBatch(s: State, relay: nat)
    requires Inv(s) && Enabled(s, Mark(relay))
    ensures Apply(s, Mark(relay)).rows == Marked(s.rows, IdsOf(s.relays[relay].batch))
  {
    var w := s.relays[relay];
    assert RelayOk(s, w);
    forall r | r in w.batch
      ensures Has(s.rows, r.id)
    {
      assert InTable(s.rows, r);
      var k :| 0 <= k < |s.rows| && (s.rows[k] == r || s.rows[k] == r.(published := true));
    }
    BatchIsKnown(s.rows, w.batch);
    assert IdsOf(w.batch)[..|w.batch|] == IdsOf(w.batch);
  }

  lemma MarkKeepsOnce(s: State, relay: nat)
    requires Once(s) && Enabled(s, Mark(relay))
    ensures Once(Apply(s, Mark(relay)))
  {
    var t := Apply(s, Mark(relay));
    MarkKeepsInv(s, relay);
    HoldsShrink(s, t, relay);
    MarkKeepsRunning(s, t, relay);
    MarkTakesTheBatch(s, relay);
    forall x | x in t.delivered
      ensures IsAccounted(t, x)
    {
      MarkKeepsAccount(s, t, relay, s.relays[relay], x);
    }
  }

  lemma HoldsShrink(s: State, t: State, relay: nat)
    requires HoldsAreDisjoint(s) && relay in s.relays && s.relays[relay].sent <= |s.relays[relay].batch|
    requires relay in t.relays && t.relays == s.relays[relay := t.relays[relay]]
    requires t.relays[relay].sent <= |t.relays[relay].batch|
    requires forall x :: x in Held(t.relays[relay]) ==> x in Held(s.relays[relay])
    ensures HoldsAreDisjoint(t)
  {
    assert forall k, x :: IsHeld(t, k, x) ==> IsHeld(s, k, x);
  }

  lemma MarkKeepsAccount(s: State, t: State, relay: nat, w: Relay, x: Record)
    requires IsAccounted(s, x) && relay in s.relays && w.sent == |w.batch| && s.relays[relay] == w
    requires t.rows == Marked(s.rows, IdsOf(w.batch)) && forall y :: y in w.batch ==> y in s.rows
    requires forall k :: k != relay && k in s.relays ==> k in t.relays && t.relays[k] == s.relays[k]
    ensures IsAccounted(t, x)
  {
    MarkedStaysMarked(s.rows, w.batch, x);
    forall k: nat | SentBy(s, k, x)
      ensures IsAccounted(t, x)
    {
      assert k != relay ==> SentBy(t, k, x);
    }
    AccountedStays(s, t, x);
  }

  lemma MarkKeepsRunning(s: State, t: State, relay: nat)
    requires Once(s) && Enabled(s, Mark(relay)) && t == Apply(s, Mark(relay))
    ensures RunningIsUnmarked(t)
  {
    MarkTakesTheBatch(s, relay);
    forall k, x | k in t.relays && t.relays[k].status == Running && x in t.relays[k].batch
      ensures x in t.rows
    {
      OtherRowsStay(s, relay, k, x);
    }
  }

  lemma OtherRowsStay(s: State, relay: nat, k: nat, x: Record)
    requires Once(s) && Enabled(s, Mark(relay)) && IsRunning(s, k) && k != relay && x in s.relays[k].batch
    ensures x in Marked(s.rows, IdsOf(s.relays[relay].batch))
  {
    var w := s.relays[relay];
    assert RelayOk(s, w) && RelayOk(s, s.relays[k]) && IsHeld(s, k, x);
    forall y | y in w.batch
      ensures y.id != x.id
    {
      assert IsHeld(s, relay, y);
      if y.id == x.id {
        OneRowPerId(s.rows, x, y);
      }
    }
    OthersStay(s.rows, w.batch, x);
  }

  /** Marking a batch marks its rows and keeps marked rows. */
  lemma MarkedStaysMarked(rows: seq<Record>, batch: seq<Record>, r: Record)
    ensures r.(published := true) in rows ==> r.(published := true) in Marked(rows, IdsOf(batch))
    ensures r in batch && r in rows ==> r.(published := true) in Marked(rows, IdsOf(batch))
  {
    var after := Marked(rows, IdsOf(batch));
    if r.(published := true) in rows {
      var k :| 0 <= k < |rows| && rows[k] == r.(published := true);
      assert after[k] == r.(published := true);
    }
    if r in batch && r in rows {
      var k :| 0 <= k < |rows| && rows[k] == r;
      var j :| 0 <= j < |batch| && batch[j] == r;
      assert IdsOf(batch)[j] == r.id;
      assert after[k] == r.(published := true);
    }
  }

  lemma OthersStay(rows: seq<Record>, batch: seq<Record>, r: Record)
    requires r in rows && forall y :: y in batch ==> y.id != r.id
    ensures r in Marked(rows, IdsOf(batch))
  {
    var k :| 0 <= k < |rows| && rows[k] == r;
    assert forall j :: 0 <= j < |batch| ==> batch[j] in batch && IdsOf(batch)[j] == batch[j].id;
    assert Marked(rows, IdsOf(batch))[k] == r;
  }

  lemma {:induction false} QuietStatesAreOnce(states: seq<State>, steps: seq<Step>, n: nat)
    requires QuietRun(states, steps) && n < |states|
    ensures Once(states[n])
  {
    if n > 0 {
      QuietStatesAreOnce(states, steps, n - 1);
      var s, step := states[n - 1], steps[n - 1];
      assert states[n - 1 + 1] == Apply(s, step) && IsQuiet(s, step) && Enabled(s, step);
      match step {
        case Insert(r) => InsertKeepsOnce(s, r);
        case Begin(relay, limit) => BeginKeepsOnce(s, relay, limit);
        case PublishNext(relay, failure) =>
          if failure.Some? {
            FailureKeepsOnce(s, relay, failure);
          } else {
            SuccessKeepsOnce(s, relay);
          }
        case Mark(relay) => MarkKeepsOnce(s, relay);
      }
    }
  }

  /**
    Main theorem: as long as no relay begins with a row that another relay has
    taken and not marked, no row is ever delivered twice.
   */
  lemma QuietRunsDeliverOnce(states: seq<State>, steps: seq<Step>, n: nat)
    requires QuietRun(states, steps) && n < |states|
    ensures DeliveredOnce(states[n])
  {
    QuietStatesAreOnce(states, steps, n);
  }

  lemma RunGoesOn(states: seq<State>, steps: seq<Step>, step: Step)
    requires IsRun(states, steps) && Enabled(states[|steps|], step)
    ensures IsRun(states + [Apply(states[|steps|], step)], steps + [step])
  {
  }

  /** A running relay can send its next rows, up to row `m`. */
  lemma {:induction false} SendThrough(states: seq<State>, steps: seq<Step>, k: nat, m: nat)
    returns (states': seq<State>, steps': seq<Step>)
    requires IsRun(states, steps) && IsRunning(states[|steps|], k)
    requires var w := states[|steps|].relays[k]; w.sent <= m < |w.batch|
    ensures IsRun(states', steps') && steps <= steps'
    ensures var s, t := states[|steps|], states'[|steps'|];
            var w := s.relays[k];
            && t.relays == s.relays[k := w.(sent := m + 1)] && t.rows == s.rows
            && t.delivered == s.delivered + w.batch[w.sent..m + 1]
    decreases m - states[|steps|].relays[k].sent
  {
    var s, step := states[|steps|], PublishNext(k, None);
    var w, t := s.relays[k], Apply(s, step);
    RunGoesOn(states, steps, step);
    if w.sent == m {
      states', steps' := states + [t], steps + [step];
      assert w.batch[m..m + 1] == [w.batch[m]];
    } else {
      states', steps' := SendThrough(states + [t], steps + [step], k, m);
      assert w.batch[w.sent..m + 1] == [w.batch[w.sent]] + w.batch[w.sent + 1..m + 1];
    }
  }

  lemma TwiceInBoth(a: seq<Record>, b: seq<Record>, r: Record)
    requires r in a && r in b
    ensures multiset(a + b)[r] >= 2
  {
    assert multiset(a + b) == multiset(a) + multiset(b);
  }

  /** A held row that has not been delivered waits in a running relay. */
  lemma HeldWaits(s: State, k: nat, r: Record) returns (m: nat)
    requires Inv(s) && IsHeld(s, k, r) && r !in s.delivered
    ensures IsRunning(s, k) && s.relays[k].sent <= m < |s.relays[k].batch| && s.relays[k].batch[m] == r
  {
    var w := s.relays[k];
    assert RelayOk(s, w);
    m :| 0 <= m < |w.batch| && w.batch[m] == r;
    assert forall j :: 0 <= j < w.sent ==> w.batch[..w.sent][j] == w.batch[j];
  }

  lemma InSlice(batch: seq<Record>, from: nat, m: nat)
    requires from <= m < |batch|
    ensures batch[m] in batch[from..m + 1]
  {
    assert batch[from..m + 1][m - from] == batch[m];
  }

  /** A running relay can go on until one of its rows has been delivered. */
  lemma DeliverHeld(states: seq<State>, steps: seq<Step>, k: nat, r: Record)
    returns (states': seq<State>, steps': seq<Step>)
    requires IsRun(states, steps) && IsHeld(states[|steps|], k, r)
    ensures IsRun(states', steps') && steps <= steps' && r in states'[|steps'|].delivered
    ensures forall l :: l != k && l in states[|steps|].relays ==>
      l in states'[|steps'|].relays && states'[|steps'|].relays[l] == states[|steps|].relays[l]
  {
    if r in states[|steps|].delivered {
      states', steps' := states, steps;
    } else {
      EveryStateIsSound(states, steps, |steps|);
      var m := HeldWaits(states[|steps|], k, r);
      states', steps' := SendThrough(states, steps, k, m);
      InSlice(states[|steps|].relays[k].batch, states[|steps|].relays[k].sent, m);
    }
  }

  /**
    The condition is needed: a relay that begins with a row another relay holds
    can go on to deliver that row a second time.
   */
  lemma HeldRowsGoOutTwice(states: seq<State>, steps: seq<Step>, k: nat, relay: nat, limit: nat, r: Record)
    returns (states': seq<State>, steps': seq<Step>)
    requires IsRun(states, steps) && Enabled(states[|steps|], Begin(relay, limit))
    requires IsHeld(states[|steps|], k, r) && r in Fetch(states[|steps|].rows, limit)
    ensures IsRun(states', steps') && steps + [Begin(relay, limit)] <= steps'
    ensures multiset(states'[|steps'|].delivered)[r] >= 2
  {
    var s := states[|steps|];
    var t := Apply(s, Begin(relay, limit));
    RunGoesOn(states, steps, Begin(relay, limit));
    assert IsHeld(t, k, r);
    states', steps' := DeliverHeld(states + [t], steps + [Begin(relay, limit)], k, r);
    var batch := Fetch(s.rows, limit);
    var u := states'[|steps'|];
    assert u.relays[relay] == Started(batch);
    var m :| 0 <= m < |batch| && batch[m] == r;
    ghost var before := u.delivered;
    states', steps' := SendThrough(states', steps', relay, m);
    InSlice(batch, 0, m);
    TwiceInBoth(before, batch[0..m + 1], r);
  }

  /** Two relays that overlap can deliver one row twice: delivery is at least once. */
  lemma OverlappingRelaysDeliverTwice(r: Record) returns (states: seq<State>, steps: seq<Step>)
    requires !r.published
    ensures IsRun(states, steps) && states[|steps|].delivered == [r, r] && |states[|steps|].rows| == 1
  {
    var idle := map[0 := Relay([r], 0, Running), 1 := Relay([r], 0, Running)];
    var half := map[0 := Relay([r], 1, Running), 1 := Relay([r], 0, Running)];
    var full := map[0 := Relay([r], 1, Running), 1 := Relay([r], 1, Running)];
    states := [State([], map[], []), State([r], map[], []), State([r], map[0 := Relay([r], 0, Running)], []),
               State([r], idle, []), State([r], half, [r]), State([r], full, [r, r])];
    steps := [Insert(r), Begin(0, 1), Begin(1, 1), PublishNext(0, None), PublishNext(1, None)];
    BothBegin(r);
    BothPublish(r);
  }

  lemma BothBegin(r: Record)
    requires !r.published
    ensures var one, idle := map[0 := Relay([r], 0, Running)],
        map[0 := Relay([r], 0, Running), 1 := Relay([r], 0, Running)];
            && Enabled(State([], map[], []), Insert(r))
            && Apply(State([], map[], []), Insert(r)) == State([r], map[], [])
            && Apply(State([r], map[], []), Begin(0, 1)) == State([r], one, [])
            && Apply(State([r], one, []), Begin(1, 1)) == State([r], idle, [])
  {
    assert Put([], r) == [r];
    OneRowBatch(r);
  }

  lemma BothPublish(r: Record)
    ensures var idle := map[0 := Relay([r], 0, Running), 1 := Relay([r], 0, Running)];
            var half := map[0 := Relay([r], 1, Running), 1 := Relay([r], 0, Running)];
            var full := map[0 := Relay([r], 1, Running), 1 := Relay([r], 1, Running)];
            && Apply(State([r], idle, []), PublishNext(0, None)) == State([r], half, [r])
            && Apply(State([r], half, [r]), PublishNext(1, None)) == State([r], full, [r, r])
  {
  }

  lemma OneRowBatch(r: Record)
    requires !r.published
    ensures Fetch([r], 1) == [r]
  {
    assert [r][..0] == [];
    assert Unpublished([r]) == [] + [r] == [r];
    SortOfSorted([r], CreatedOf);
  }
}
