/**
  The three event stores behind one interface: used by one caller at a time,
  with lossless serialisers, they answer alike.
 */
module EventStores {
  import opened Options
  import Sorting
  import SqlJournal
  import Text

  datatype Stored<+P> = Stored(eventId: string, version: nat, payload: P)
  datatype Record<+P> = Record(stream: string, eventId: string, version: nat, payload: P)

  /** What callers of different stores can compare: versions and payloads, for each store draws its own event ids. */
  type Numbered<P> = seq<(nat, P)>

  function View<P>(events: seq<Stored<P>>): Numbered<P> {
    seq(|events|, k requires 0 <= k < |events| => (events[k].version, events[k].payload))
  }

  function Number<P>(payloads: seq<P>, after: nat): Numbered<P> {
    seq(|payloads|, k requires 0 <= k < |payloads| => (after + k + 1, payloads[k]))
  }

  /** The entries from version `from` on, when versions start at 1. */
  function Since<T>(all: seq<T>, from: nat): seq<T> {
    if from <= 1 then all else if from > |all| then [] else all[from - 1..]
  }

  ghost predicate Contiguous<P>(events: seq<Stored<P>>) {
    forall k :: 0 <= k < |events| ==> events[k].version == k + 1
  }

  /** These are the entries, versioned from 1. */
  ghost predicate IsStream<P>(events: seq<Stored<P>>, entries: seq<Stored<P>>) {
    events == entries && Contiguous(entries)
  }

  function PayloadsOf<P>(events: seq<Stored<P>>): seq<P> {
    seq(|events|, k requires 0 <= k < |events| => events[k].payload)
  }

  /** What a store holds per stream. */
  ghost function Nothing<T>(): string -> seq<T> {
    s => []
  }

  ghost function Grown<T>(contents: string -> seq<T>, stream: string, more: seq<T>): string -> seq<T> {
    s => if s == stream then contents(s) + more else contents(s)
  }

  function StreamOf<P>(streams: map<string, seq<Stored<P>>>, stream: string): seq<Stored<P>> {
    if stream in streams then streams[stream] else []
  }

  /** New events after a stream of length `after`. */
  function NewEvents<P>(payloads: seq<P>, ids: seq<string>, after: nat): seq<Stored<P>>
    requires |ids| == |payloads|
  {
    seq(|payloads|, k requires 0 <= k < |payloads| => Stored(ids[k], after + k + 1, payloads[k]))
  }

  function SinceVersion<P>(events: seq<Stored<P>>, from: nat): seq<Stored<P>> {
    if events == [] then []
    else (if events[0].version >= from then [events[0]] else []) + SinceVersion(events[1..], from)
  }

  lemma {:induction false} SinceContiguous<P>(events: seq<Stored<P>>, first: nat, from: nat)
    requires forall k :: 0 <= k < |events| ==> events[k].version == first + k + 1
    ensures SinceVersion(events, from) ==
      if from <= first + 1 then events else if from > first + |events| then [] else events[from - first - 1..]
  {
    if events != [] {
      SinceContiguous(events[1..], first + 1, from);
      assert events == [events[0]] + events[1..];
    }
  }

  /** On a stream, keeping the versions from `from` on is cutting there. */
  lemma SinceIsSlice<P>(events: seq<Stored<P>>, from: nat)
    requires Contiguous(events)
    ensures SinceVersion(events, from) == Since(events, from)
  {
    SinceContiguous(events, 0, from);
  }

  lemma ViewOfSince<P>(events: seq<Stored<P>>, from: nat)
    requires Contiguous(events)
    ensures View(Since(events, from)) == Since(Number(PayloadsOf(events), 0), from)
  {
    ViewIsNumbered(events);
    if 1 < from <= |events| {
      ViewOfSlice(events, from - 1);
    }
  }

  lemma ViewIsNumbered<P>(events: seq<Stored<P>>)
    requires Contiguous(events)
    ensures View(events) == Number(PayloadsOf(events), 0)
  {
  }

  lemma ViewOfSlice<P>(events: seq<Stored<P>>, k: nat)
    requires k <= |events|
    ensures View(events[k..]) == View(events)[k..]
  {
  }

  lemma ViewOfNew<P>(payloads: seq<P>, ids: seq<string>, after: nat)
    requires |ids| == |payloads|
    ensures View(NewEvents(payloads, ids, after)) == Number(payloads, after)
    ensures PayloadsOf(NewEvents(payloads, ids, after)) == payloads
  {
  }

  lemma PayloadsOfGrown<P>(events: seq<Stored<P>>, more: seq<Stored<P>>)
    ensures PayloadsOf(events + more) == PayloadsOf(events) + PayloadsOf(more)
  {
  }

  lemma ExtendStream<P>(events: seq<Stored<P>>, payloads: seq<P>, ids: seq<string>)
    requires Contiguous(events) && |ids| == |payloads|
    ensures Contiguous(events + NewEvents(payloads, ids, |events|))
  {
  }

  // ------------------------------------------------------------------
  // In memory
  // ------------------------------------------------------------------

  class MemoryEventStore<P> {
    var streams: map<string, seq<Stored<P>>>
    ghost var contents: string -> seq<Stored<P>>

    ghost predicate Valid()
      reads this
    {
      forall s :: IsStream(StreamOf(streams, s), contents(s))
    }

    constructor ()
      ensures Valid() && contents == Nothing()
    {
      streams := map[];
      contents := Nothing();
    }

    method Append(stream: string, payloads: seq<P>, ids: seq<string>) returns (out: seq<Stored<P>>)
      requires Valid() && |ids| == |payloads|
      modifies this
      ensures Valid() && contents == Grown(old(contents), stream, out)
      ensures out == NewEvents(payloads, ids, |old(contents)(stream)|)
    {
      var events := StreamOf(streams, stream);
      ghost var before := events;
      out := [];
      for k := 0 to |payloads|
        invariant out == NewEvents(payloads[..k], ids[..k], |before|)
        invariant events == before + out
      {
        var stored := Stored(ids[k], |events| + 1, payloads[k]);
        events, out := events + [stored], out + [stored];
      }
      assert payloads[..|payloads|] == payloads && ids[..|ids|] == ids;
      assert IsStream(before, contents(stream));
      ExtendStream(before, payloads, ids);
      streams := streams[stream := events];
      contents := Grown(contents, stream, out);
      forall s
        ensures IsStream(StreamOf(streams, s), contents(s))
      {
        assert IsStream(StreamOf(old(streams), s), old(contents)(s));
      }
    }

    method Read(stream: string, from: nat) returns (out: seq<Stored<P>>)
      requires Valid()
      ensures out == Since(contents(stream), from) && Contiguous(contents(stream))
    {
      assert IsStream(StreamOf(streams, stream), contents(stream));
      SinceIsSlice(StreamOf(streams, stream), from);
      out := SinceVersion(StreamOf(streams, stream), from);
    }

    method LatestVersion(stream: string) returns (v: nat)
      requires Valid()
      ensures v == |contents(stream)|
    {
      assert IsStream(StreamOf(streams, stream), contents(stream));
      v := |StreamOf(streams, stream)|;
    }
  }

  // ------------------------------------------------------------------
  // One log file
  // ------------------------------------------------------------------

  datatype LineCodec<!P> = LineCodec(encode: Record<P> -> string, decode: string -> Option<Record<P>>)

  /** Every record comes back from its line, and its text is one line that is not blank. */
  ghost predicate Lossless<P(!new)>(codec: LineCodec<P>) {
    forall r ::
      var line := codec.encode(r);
      codec.decode(line) == Some(r) && !Text.AllSpace(line) && Text.IsLine(line)
  }

  function EncodeAll<P>(codec: LineCodec<P>, records: seq<Record<P>>): seq<string> {
    seq(|records|, k requires 0 <= k < |records| => codec.encode(records[k]))
  }

  function Entry<P>(r: Record<P>): Stored<P> {
    Stored(r.eventId, r.version, r.payload)
  }

  function AddRecord<P>(streams: map<string, seq<Stored<P>>>, r: Record<P>): map<string, seq<Stored<P>>> {
    streams[r.stream := StreamOf(streams, r.stream) + [Entry(r)]]
  }

  /** One line of the first pass; an undecodable one fails the whole read. */
  function AddLine<P>(codec: LineCodec<P>, before: Option<map<string, seq<Stored<P>>>>,
                      line: string): Option<map<string, seq<Stored<P>>>> {
    if before.None? || Text.AllSpace(line) then before
    else
      match codec.decode(line)
      case None => None
      case Some(r) => Some(AddRecord(before.value, r))
  }

  /** The first pass over the lines. */
  function Regroup<P>(codec: LineCodec<P>, lines: seq<string>): Option<map<string, seq<Stored<P>>>> {
    if lines == [] then Some(map[]) else AddLine(codec, Regroup(codec, lines[..|lines| - 1]), lines[|lines| - 1])
  }

  function ByVersion<P>(): Stored<P> -> int {
    (e: Stored<P>) => e.version
  }

  function SortByVersion<P>(events: seq<Stored<P>>): seq<Stored<P>> {
    Sorting.SortBy(events, ByVersion())
  }

  lemma SortOfContiguous<P>(events: seq<Stored<P>>)
    requires Contiguous(events)
    ensures SortByVersion(events) == events
  {
    Sorting.SortOfSorted(events, ByVersion());
  }

  /** The entries of one stream, in log order. */
  ghost function OfStream<P>(records: seq<Record<P>>, stream: string): seq<Stored<P>> {
    if records == [] then []
    else
      OfStream(records[..|records| - 1], stream)
      + (if records[|records| - 1].stream == stream then [Entry(records[|records| - 1])] else [])
  }

  lemma {:induction false} RegroupOfEncoded<P(!new)>(codec: LineCodec<P>, records: seq<Record<P>>)
    requires Lossless(codec)
    ensures Regroup(codec, EncodeAll(codec, records)).Some?
    ensures forall s :: StreamOf(Regroup(codec, EncodeAll(codec, records)).value, s) == OfStream(records, s)
  {
    if records != [] {
      var n := |records| - 1;
      var lines := EncodeAll(codec, records);
      RegroupOfEncoded(codec, records[..n]);
      assert lines[..n] == EncodeAll(codec, records[..n]);
      assert lines[n] == codec.encode(records[n]);
      var streams := Regroup(codec, lines[..n]).value;
      assert Regroup(codec, lines) == Some(AddRecord(streams, records[n]));
      forall s
        ensures StreamOf(AddRecord(streams, records[n]), s) == OfStream(records, s)
      {
        assert StreamOf(streams, s) == OfStream(records[..n], s);
      }
    }
  }

  /** The lines that are not blank. */
  function Solid(lines: seq<string>): seq<string> {
    if lines == [] then []
    else
      var front, line := lines[..|lines| - 1], lines[|lines| - 1];
      if Text.AllSpace(line) then Solid(front) else Solid(front) + [line]
  }

  lemma OneMoreLine<P>(codec: LineCodec<P>, front: seq<string>, line: string)
    ensures Regroup(codec, front + [line]) == AddLine(codec, Regroup(codec, front), line)
  {
    assert (front + [line])[..|front|] == front;
  }

  /** Blank lines in the log do not matter. */
  lemma {:induction false} BlankLinesAreSkipped<P>(codec: LineCodec<P>, lines: seq<string>)
    ensures Regroup(codec, Solid(lines)) == Regroup(codec, lines)
  {
    if lines != [] {
      var n := |lines| - 1;
      BlankLinesAreSkipped(codec, lines[..n]);
      if !Text.AllSpace(lines[n]) {
        OneMoreLine(codec, Solid(lines[..n]), lines[n]);
      }
    }
  }

  /** A line that holds something and does not decode. */
  ghost predicate IsBroken<P>(codec: LineCodec<P>, line: string) {
    !Text.AllSpace(line) && codec.decode(line).None?
  }

  /** A read of the log fails exactly when it holds such a line. */
  lemma {:induction false} RegroupFailsIff<P>(codec: LineCodec<P>, lines: seq<string>)
    ensures Regroup(codec, lines).None? <==> exists k :: 0 <= k < |lines| && IsBroken(codec, lines[k])
  {
    if lines != [] {
      var n := |lines| - 1;
      RegroupFailsIff(codec, lines[..n]);
      assert forall k :: 0 <= k < n ==> lines[..n][k] == lines[k];
      assert Regroup(codec, lines[..n]).None? <==> exists k :: 0 <= k < n && IsBroken(codec, lines[k]);
    }
  }

  /** Records of one stream appended to the log extend that stream only. */
  lemma {:induction false} OfStreamAppend<P>(records: seq<Record<P>>, more: seq<Record<P>>, stream: string, s: string)
    requires forall k :: 0 <= k < |more| ==> more[k].stream == stream
    ensures OfStream(records + more, s) ==
      OfStream(records, s) + (if s == stream then seq(|more|, k requires 0 <= k < |more| => Entry(more[k])) else [])
  {
    if more == [] {
      assert records + more == records;
    } else {
      var n := |more| - 1;
      OfStreamAppend(records, more[..n], stream, s);
      assert (records + more)[..|records + more| - 1] == records + more[..n];
      if s == stream {
        assert seq(|more|, k requires 0 <= k < |more| => Entry(more[k]))
            == seq(n, k requires 0 <= k < n => Entry(more[..n][k])) + [Entry(more[n])];
      }
    }
  }

  function NewRecords<P>(stream: string, payloads: seq<P>, ids: seq<string>, after: nat): seq<Record<P>>
    requires |ids| == |payloads|
  {
    seq(|payloads|, k requires 0 <= k < |payloads| => Record(stream, ids[k], after + k + 1, payloads[k]))
  }

  method RegroupLines<P>(codec: LineCodec<P>, lines: seq<string>) returns (r: Option<map<string, seq<Stored<P>>>>)
    ensures r == Regroup(codec, lines)
  {
    var streams: map<string, seq<Stored<P>>> := map[];
    for k := 0 to |lines|
      invariant Regroup(codec, lines[..k]) == Some(streams)
    {
      assert lines[..k + 1][..k] == lines[..k];
      if !Text.AllSpace(lines[k]) {
        var record := codec.decode(lines[k]);
        if record.None? {
          RegroupFails(codec, lines, k + 1);
          return None;
        }
        streams := AddRecord(streams, record.value);
      }
    }
    assert lines[..|lines|] == lines;
    r := Some(streams);
  }

  lemma {:induction false} RegroupFails<P>(codec: LineCodec<P>, lines: seq<string>, k: nat)
    requires k <= |lines| && Regroup(codec, lines[..k]).None?
    ensures Regroup(codec, lines).None?
    decreases |lines|
  {
    if k < |lines| {
      assert lines[..|lines| - 1][..k] == lines[..k];
      RegroupFails(codec, lines[..|lines| - 1], k);
    } else {
      assert lines[..k] == lines;
    }
  }

  /** The new events of a stream, and their records for the log. */
  method Compose<P>(stream: string, payloads: seq<P>, ids: seq<string>, events0: seq<Stored<P>>)
    returns (out: seq<Stored<P>>, more: seq<Record<P>>)
    requires |ids| == |payloads|
    ensures out == NewEvents(payloads, ids, |events0|) && more == NewRecords(stream, payloads, ids, |events0|)
  {
    var events := events0;
    out, more := [], [];
    for k := 0 to |payloads|
      invariant out == NewEvents(payloads[..k], ids[..k], |events0|) && events == events0 + out
      invariant more == NewRecords(stream, payloads[..k], ids[..k], |events0|)
    {
      var stored := Stored(ids[k], |events| + 1, payloads[k]);
      more := more + [Record(stream, ids[k], |events| + 1, payloads[k])];
      events, out := events + [stored], out + [stored];
    }
    assert payloads[..|payloads|] == payloads && ids[..|ids|] == ids;
  }

  lemma OneLineMore<P>(codec: LineCodec<P>, records: seq<Record<P>>, r: Record<P>)
    ensures Text.Written(EncodeAll(codec, records + [r])) ==
            Text.Written(EncodeAll(codec, records)) + codec.encode(r) + "\n"
  {
    Text.WrittenOneMore(EncodeAll(codec, records), codec.encode(r));
    assert EncodeAll(codec, records + [r]) == EncodeAll(codec, records) + [codec.encode(r)];
  }

  class FileJournal<P(!new)> {
    const codec: LineCodec<P>
    var file: string
    ghost var records: seq<Record<P>>
    ghost var contents: string -> seq<Stored<P>>

    ghost predicate Valid()
      reads this
    {
      && Lossless(codec)
      && file == Text.Written(EncodeAll(codec, records))
      && forall s :: IsStream(OfStream(records, s), contents(s))
    }

    constructor (codec: LineCodec<P>)
      requires Lossless(codec)
      ensures Valid() && contents == Nothing()
    {
      this.codec := codec;
      file := "";
      records := [];
      contents := Nothing();
    }

    /** Reads the whole file, regroups it by stream and sorts each stream by version. */
    method ReadAll() returns (r: Option<map<string, seq<Stored<P>>>>)
      requires Valid()
      ensures r.Some? && forall s :: StreamOf(r.value, s) == OfStream(records, s)
    {
      RegroupOfEncoded(codec, records);
      Text.LinesOfWritten(EncodeAll(codec, records));
      var grouped := RegroupLines(codec, Text.Lines(file));
      r := Some(map s | s in grouped.value :: SortByVersion(grouped.value[s]));
      forall s
        ensures StreamOf(r.value, s) == OfStream(records, s)
      {
        assert IsStream(OfStream(records, s), contents(s));
        assert StreamOf(r.value, s) == SortByVersion(StreamOf(grouped.value, s));
        SortOfContiguous(OfStream(records, s));
      }
    }

    method AppendRecords(more: seq<Record<P>>)
      requires file == Text.Written(EncodeAll(codec, records))
      modifies this`file, this`records
      ensures records == old(records) + more && file == Text.Written(EncodeAll(codec, records))
    {
      for k := 0 to |more|
        invariant records == old(records) + more[..k] && file == Text.Written(EncodeAll(codec, records))
      {
        var line := codec.encode(more[k]);
        OneLineMore(codec, records, more[k]);
        assert more[..k + 1] == more[..k] + [more[k]];
        file := file + line + "\n";
        records := records + [more[k]];
      }
    }

    method Append(stream: string, payloads: seq<P>, ids: seq<string>) returns (out: seq<Stored<P>>)
      requires Valid() && |ids| == |payloads|
      modifies this
      ensures Valid() && contents == Grown(old(contents), stream, out)
      ensures out == NewEvents(payloads, ids, |old(contents)(stream)|)
    {
      var streams := ReadAll();
      ghost var before := OfStream(records, stream);
      var more;
      out, more := Compose(stream, payloads, ids, StreamOf(streams.value, stream));
      ExtendStream(before, payloads, ids);
      ExtendLog(records, contents, stream, payloads, ids);
      AppendRecords(more);
      contents := Grown(contents, stream, out);
    }

    method Read(stream: string, from: nat) returns (out: seq<Stored<P>>)
      requires Valid()
      ensures out == Since(contents(stream), from) && Contiguous(contents(stream))
    {
      var streams := ReadAll();
      assert IsStream(OfStream(records, stream), contents(stream));
      SinceIsSlice(OfStream(records, stream), from);
      out := SinceVersion(StreamOf(streams.value, stream), from);
    }

    method LatestVersion(stream: string) returns (v: nat)
      requires Valid()
      ensures v == |contents(stream)|
    {
      var streams := ReadAll();
      assert IsStream(OfStream(records, stream), contents(stream));
      v := |StreamOf(streams.value, stream)|;
    }
  }

  lemma ExtendLog<P>(records: seq<Record<P>>, contents: string -> seq<Stored<P>>, stream: string, payloads: seq<P>,
                     ids: seq<string>)
    requires |ids| == |payloads| && forall s :: IsStream(OfStream(records, s), contents(s))
    ensures var after := |OfStream(records, stream)|;
            forall s :: IsStream(OfStream(records + NewRecords(stream, payloads, ids, after), s),
                                 Grown(contents, stream, NewEvents(payloads, ids, after))(s))
  {
    var before := OfStream(records, stream);
    var more := NewRecords(stream, payloads, ids, |before|);
    forall s
      ensures IsStream(OfStream(records + more, s), Grown(contents, stream, NewEvents(payloads, ids, |before|))(s))
    {
      assert IsStream(OfStream(records, s), contents(s)) && IsStream(before, contents(stream));
      ExtendOneStream(records, OfStream(records, s), stream, payloads, ids, |before|, s);
    }
  }

  lemma ExtendOneStream<P>(records: seq<Record<P>>, before: seq<Stored<P>>, stream: string, payloads: seq<P>,
                           ids: seq<string>, after: nat, s: string)
    requires |ids| == |payloads| && IsStream(OfStream(records, s), before)
    requires s == stream ==> after == |before|
    ensures IsStream(OfStream(records + NewRecords(stream, payloads, ids, after), s),
                     if s == stream then before + NewEvents(payloads, ids, after) else before)
  {
    var more := NewRecords(stream, payloads, ids, after);
    OfStreamAppend(records, more, stream, s);
    if s == stream {
      assert seq(|more|, k requires 0 <= k < |more| => Entry(more[k])) == NewEvents(payloads, ids, after);
      ExtendStream(before, payloads, ids);
    } else {
      assert before + [] == before;
    }
  }

  // ------------------------------------------------------------------
  // SQL
  // ------------------------------------------------------------------

  datatype JsonCodec<!P> = JsonCodec(encode: P -> string, decode: string -> Option<P>)

  ghost predicate JsonLossless<P(!new)>(codec: JsonCodec<P>) {
    forall p :: codec.decode(codec.encode(p)) == Some(p)
  }

  /** The row holds the entry. */
  ghost predicate Holds<P>(codec: JsonCodec<P>, row: SqlJournal.Row, entry: Stored<P>) {
    row == SqlJournal.Row(entry.version, entry.eventId, codec.encode(entry.payload))
  }

  ghost predicate RowsHold<P>(codec: JsonCodec<P>, rows: seq<SqlJournal.Row>, entries: seq<Stored<P>>) {
    |rows| == |entries| && forall k :: 0 <= k < |rows| ==> Holds(codec, rows[k], entries[k])
  }

  /** The rows' entries, unless some payload does not decode. */
  ghost predicate AllDecode<P>(codec: JsonCodec<P>, rows: seq<SqlJournal.Row>) {
    forall k {:trigger rows[k]} :: 0 <= k < |rows| ==> codec.decode(rows[k].payload).Some?
  }

  ghost function Decoded<P>(codec: JsonCodec<P>, rows: seq<SqlJournal.Row>): seq<Stored<P>>
    requires AllDecode(codec, rows)
  {
    seq(|rows|, k requires 0 <= k < |rows| =>
        Stored(rows[k].eventId, rows[k].version, codec.decode(rows[k].payload).value))
  }

  /** One undecodable payload fails the whole read. */
  method DecodeRows<P>(codec: JsonCodec<P>, rows: seq<SqlJournal.Row>) returns (r: Option<seq<Stored<P>>>)
    ensures r.Some? <==> AllDecode(codec, rows)
    ensures r.Some? ==> r.value == Decoded(codec, rows)
  {
    var out: seq<Stored<P>> := [];
    for k := 0 to |rows|
      invariant |out| == k
      invariant forall j :: 0 <= j < k ==>
        codec.decode(rows[j].payload).Some? &&
        out[j] == Stored(rows[j].eventId, rows[j].version, codec.decode(rows[j].payload).value)
    {
      var payload := codec.decode(rows[k].payload);
      if payload.None? {
        return None;
      }
      out := out + [Stored(rows[k].eventId, rows[k].version, payload.value)];
    }
    r := Some(out);
  }

  /** Selecting from a version and decoding is reading from that version. */
  lemma RowsSince<P(!new)>(codec: JsonCodec<P>, rows: seq<SqlJournal.Row>, entries: seq<Stored<P>>, from: nat)
    requires JsonLossless(codec) && RowsHold(codec, rows, entries) && Contiguous(entries)
    ensures AllDecode(codec, SqlJournal.FromVersion(rows, from))
    ensures Decoded(codec, SqlJournal.FromVersion(rows, from)) == Since(entries, from)
  {
    DecodedWhole(codec, rows, entries);
    SqlJournal.SelectFromContiguous(rows, 0, from);
    if 1 < from <= |rows| {
      DecodedSlice(codec, rows, from - 1);
    }
  }

  lemma DecodedSlice<P>(codec: JsonCodec<P>, rows: seq<SqlJournal.Row>, k: nat)
    requires k <= |rows| && AllDecode(codec, rows)
    ensures AllDecode(codec, rows[k..]) && Decoded(codec, rows[k..]) == Decoded(codec, rows)[k..]
  {
  }

  lemma DecodedWhole<P(!new)>(codec: JsonCodec<P>, rows: seq<SqlJournal.Row>, entries: seq<Stored<P>>)
    requires JsonLossless(codec) && RowsHold(codec, rows, entries) && Contiguous(entries)
    ensures AllDecode(codec, rows) && Decoded(codec, rows) == entries
    ensures SqlJournal.Contiguous(rows)
  {
    assert forall k :: 0 <= k < |rows| ==> Holds(codec, rows[k], entries[k]);
  }

  class SqlEventJournal<P(!new)> {
    const codec: JsonCodec<P>
    const backend: SqlJournal.Backend
    ghost var contents: string -> seq<Stored<P>>

    ghost predicate Valid()
      reads this, backend
    {
      && JsonLossless(codec)
      && backend.Valid()
      && forall s :: RowsHold(codec, SqlJournal.RowsOf(backend.store, s), contents(s)) && Contiguous(contents(s))
    }

    constructor (codec: JsonCodec<P>)
      requires JsonLossless(codec)
      ensures Valid() && fresh(backend) && contents == Nothing()
    {
      this.codec := codec;
      backend := new SqlJournal.Backend();
      contents := Nothing();
    }

    method Append(stream: string, payloads: seq<P>, ids: seq<string>) returns (out: seq<Stored<P>>)
      requires Valid() && |ids| == |payloads|
      modifies this, backend
      ensures Valid() && contents == Grown(old(contents), stream, out)
      ensures out == NewEvents(payloads, ids, |old(contents)(stream)|)
    {
      ghost var before := backend.store;
      var events := seq(|payloads|, k requires 0 <= k < |payloads| =>
          SqlJournal.Event(ids[k], codec.encode(payloads[k])));
      var r, rows := backend.Append(stream, events);
      out := seq(|rows|, k requires 0 <= k < |rows| && |rows| == |payloads| =>
          Stored(rows[k].eventId, rows[k].version, payloads[k]));
      ghost var held := contents;
      RowsExtend(codec, SqlJournal.RowsOf(before, stream), held(stream), payloads, ids, rows, out);
      contents := Grown(held, stream, out);
      forall s
        ensures RowsHold(codec, SqlJournal.RowsOf(backend.store, s), contents(s)) && Contiguous(contents(s))
      {
        assert RowsHold(codec, SqlJournal.RowsOf(before, s), held(s));
      }
    }

    method Read(stream: string, from: nat) returns (out: seq<Stored<P>>)
      requires Valid()
      ensures out == Since(contents(stream), from) && Contiguous(contents(stream))
    {
      var rows := backend.SelectFrom(stream, from);
      RowsSince(codec, SqlJournal.RowsOf(backend.store, stream), contents(stream), from);
      var decoded := DecodeRows(codec, rows);
      out := decoded.value;
    }

    method LatestVersion(stream: string) returns (v: nat)
      requires Valid()
      ensures v == |contents(stream)|
    {
      var rows := backend.SelectFrom(stream, 1);
      SqlJournal.LatestOfContiguous(SqlJournal.RowsOf(backend.store, stream));
      v := SqlJournal.MaxVersion(rows);
    }
  }

  lemma RowsExtend<P>(codec: JsonCodec<P>, before: seq<SqlJournal.Row>, held: seq<Stored<P>>, payloads: seq<P>,
                      ids: seq<string>, rows: seq<SqlJournal.Row>, out: seq<Stored<P>>)
    requires RowsHold(codec, before, held) && Contiguous(held) && |ids| == |payloads|
    requires rows == SqlJournal.Block(|before|,
      seq(|payloads|, k requires 0 <= k < |payloads| => SqlJournal.Event(ids[k], codec.encode(payloads[k]))))
    requires |out| == |payloads|
    requires forall k :: 0 <= k < |out| ==> out[k] == Stored(rows[k].eventId, rows[k].version, payloads[k])
    ensures out == NewEvents(payloads, ids, |held|)
    ensures RowsHold(codec, before + rows, held + out) && Contiguous(held + out)
  {
    forall k | 0 <= k < |out|
      ensures rows[k] == SqlJournal.Row(|held| + k + 1, ids[k], codec.encode(payloads[k]))
    {
    }
  }

  // ------------------------------------------------------------------
  // Three stores are one
  // ------------------------------------------------------------------

  datatype Op<+P> = AppendOp(stream: string, payloads: seq<P>) | ReadOp(stream: string, from: nat)
    | LatestOp(stream: string)

  datatype Answer<P> = Events(entries: Numbered<P>) | Version(version: nat)

  /** All payloads ever appended to a stream, in order. */
  ghost function Written<P>(ops: seq<Op<P>>, stream: string): seq<P> {
    if ops == [] then []
    else Written(ops[..|ops| - 1], stream) + AddedTo(ops[|ops| - 1], stream)
  }

  ghost function AddedTo<P>(op: Op<P>, stream: string): seq<P> {
    if op.AppendOp? && op.stream == stream then op.payloads else []
  }

  /** The answer the interface promises, from the payloads already written to the stream. */
  ghost function Answered<P>(op: Op<P>, written: seq<P>): Answer<P> {
    match op
    case AppendOp(_, payloads) => Events(Number(payloads, |written|))
    case ReadOp(_, from) => Events(Since(Number(written, 0), from))
    case LatestOp(_) => Version(|written|)
  }

  /** Reading from just after the old latest version gives back exactly what an append returned. */
  lemma ReadBackAppend<P>(stream: string, payloads: seq<P>, written: seq<P>)
    ensures Answered(ReadOp(stream, |written| + 1), written + payloads) == Answered(AppendOp(stream, payloads), written)
  {
    var all := Number(written + payloads, 0);
    if written == [] {
      assert written + payloads == payloads;
    } else if payloads != [] {
      assert all[|written|..] == Number(payloads, |written|);
    }
  }

  /** In every store a read from there gives back the very entries that the append returned, event ids included. */
  lemma EntriesReadBack<P>(before: seq<Stored<P>>, out: seq<Stored<P>>)
    ensures Since(before + out, |before| + 1) == out
  {
    assert (before + out)[|before|..] == out;
    assert before == [] ==> before + out == out;
  }

  /** Two appends to a stream answer like one append of both batches. */
  lemma AppendInTwo<P>(stream: string, first: seq<P>, second: seq<P>, written: seq<P>)
    ensures Answered(AppendOp(stream, first + second), written).entries ==
      Answered(AppendOp(stream, first), written).entries + Answered(AppendOp(stream, second), written + first).entries
  {
  }

  /** The event ids each store draws for a call; nothing depends on them. */
  datatype IdSource = IdSource(memory: seq<string>, file: seq<string>, sql: seq<string>)

  ghost predicate IdsFit<P>(op: Op<P>, ids: IdSource) {
    op.AppendOp? ==> |ids.memory| == |ids.file| == |ids.sql| == |op.payloads|
  }

  /** All three stores hold these payloads per stream, each under its own event ids. */
  ghost predicate Hold<P(!new)>(m: MemoryEventStore<P>, f: FileJournal<P>, q: SqlEventJournal<P>,
                                written: string -> seq<P>)
    reads m, f, q
  {
    forall s :: HoldsAt(m.contents(s), f.contents(s), q.contents(s), written(s))
  }

  ghost predicate HoldsAt<P>(m: seq<Stored<P>>, f: seq<Stored<P>>, q: seq<Stored<P>>, written: seq<P>) {
    PayloadsOf(m) == PayloadsOf(f) == PayloadsOf(q) == written
  }

  ghost function Extended<P>(written: string -> seq<P>, op: Op<P>): string -> seq<P> {
    if op.AppendOp? then Grown(written, op.stream, op.payloads) else written
  }

  /** One operation on all three stores. */
  method Perform<P(!new)>(m: MemoryEventStore<P>, f: FileJournal<P>, q: SqlEventJournal<P>,
                          ghost written: string -> seq<P>, op: Op<P>, ids: IdSource)
    returns (am: Answer<P>, af: Answer<P>, aq: Answer<P>)
    requires m.Valid() && f.Valid() && q.Valid() && Hold(m, f, q, written) && IdsFit(op, ids)
    modifies m, f, q, q.backend
    ensures m.Valid() && f.Valid() && q.Valid() && Hold(m, f, q, Extended(written, op))
    ensures am == af == aq == Answered(op, written(op.stream))
  {
    assert HoldsAt(m.contents(op.stream), f.contents(op.stream), q.contents(op.stream), written(op.stream));
    match op {
      case AppendOp(stream, payloads) =>
        ghost var bm, bf, bq := m.contents, f.contents, q.contents;
        var em := m.Append(stream, payloads, ids.memory);
        var ef := f.Append(stream, payloads, ids.file);
        var eq := q.Append(stream, payloads, ids.sql);
        am, af, aq := Events(View(em)), Events(View(ef)), Events(View(eq));
        ViewOfNew(payloads, ids.memory, |written(stream)|);
        ViewOfNew(payloads, ids.file, |written(stream)|);
        ViewOfNew(payloads, ids.sql, |written(stream)|);
        forall s
          ensures HoldsAt(m.contents(s), f.contents(s), q.contents(s), Extended(written, op)(s))
        {
          assert HoldsAt(bm(s), bf(s), bq(s), written(s));
          PayloadsOfGrown(bm(s), em);
          PayloadsOfGrown(bf(s), ef);
          PayloadsOfGrown(bq(s), eq);
        }
      case ReadOp(stream, from) =>
        var em := m.Read(stream, from);
        var ef := f.Read(stream, from);
        var eq := q.Read(stream, from);
        ViewOfSince(m.contents(stream), from);
        ViewOfSince(f.contents(stream), from);
        ViewOfSince(q.contents(stream), from);
        am, af, aq := Events(View(em)), Events(View(ef)), Events(View(eq));
      case LatestOp(stream) =>
        var vm := m.LatestVersion(stream);
        var vf := f.LatestVersion(stream);
        var vq := q.LatestVersion(stream);
        am, af, aq := Version(vm), Version(vf), Version(vq);
    }
  }

  /** Operation `k` answered from the contents before it and left the contents after it. */
  ghost predicate Follows<P>(trace: seq<string -> seq<P>>, ops: seq<Op<P>>, answers: seq<Answer<P>>, k: nat) {
    && k < |ops| && k < |answers| && k + 1 < |trace|
    && trace[k + 1] == Extended(trace[k], ops[k])
    && answers[k] == Answered(ops[k], trace[k](ops[k].stream))
  }

  /** A run of the first `n` operations from empty stores. */
  ghost predicate IsTrace<P>(trace: seq<string -> seq<P>>, ops: seq<Op<P>>, answers: seq<Answer<P>>, n: nat) {
    && |answers| == n && |trace| == n + 1 && trace[0] == Nothing()
    && forall k: nat :: k < n ==> Follows(trace, ops, answers, k)
  }

  lemma OneMore<P>(trace: seq<string -> seq<P>>, ops: seq<Op<P>>, answers: seq<Answer<P>>, n: nat)
    requires n < |ops| && IsTrace(trace, ops, answers, n)
    ensures var answer := Answered(ops[n], trace[n](ops[n].stream));
            IsTrace(trace + [Extended(trace[n], ops[n])], ops, answers + [answer], n + 1)
  {
    var longer := trace + [Extended(trace[n], ops[n])];
    var more := answers + [Answered(ops[n], trace[n](ops[n].stream))];
    forall k: nat | k < n + 1
      ensures Follows(longer, ops, more, k)
    {
      assert k < n ==> Follows(trace, ops, answers, k);
    }
  }

  /** A run of operations on three new stores. */
  method Serve<P(!new)>(m: MemoryEventStore<P>, f: FileJournal<P>, q: SqlEventJournal<P>,
                        ops: seq<Op<P>>, ids: seq<IdSource>)
    returns (memory: seq<Answer<P>>, file: seq<Answer<P>>, sql: seq<Answer<P>>, ghost trace: seq<string -> seq<P>>)
    requires m.Valid() && f.Valid() && q.Valid() && Hold(m, f, q, Nothing())
    requires |ids| == |ops| && forall k :: 0 <= k < |ops| ==> IdsFit(ops[k], ids[k])
    modifies m, f, q, q.backend
    ensures m.Valid() && f.Valid() && q.Valid()
    ensures memory == file == sql
    ensures IsTrace(trace, ops, memory, |ops|) && Hold(m, f, q, trace[|ops|])
  {
    memory, file, sql := [], [], [];
    trace := [Nothing<P>()];
    for n := 0 to |ops|
      invariant m.Valid() && f.Valid() && q.Valid()
      invariant memory == file == sql
      invariant IsTrace(trace, ops, memory, n) && Hold(m, f, q, trace[n])
    {
      var am, af, aq := Perform(m, f, q, trace[n], ops[n], ids[n]);
      OneMore(trace, ops, memory, n);
      trace := trace + [Extended(trace[n], ops[n])];
      memory, file, sql := memory + [am], file + [af], sql + [aq];
    }
  }

  /** The contents in a run are what was written so far, stream by stream. */
  lemma {:induction false} TraceIsWritten<P>(trace: seq<string -> seq<P>>, ops: seq<Op<P>>, answers: seq<Answer<P>>,
                                             k: nat, stream: string)
    requires IsTrace(trace, ops, answers, |ops|) && k <= |ops|
    ensures trace[k](stream) == Written(ops[..k], stream)
  {
    if k > 0 {
      TraceIsWritten(trace, ops, answers, k - 1, stream);
      assert Follows(trace, ops, answers, k - 1);
      assert ops[..k][..k - 1] == ops[..k - 1];
    }
  }

  /**
    Main theorem: on every sequential run the three stores give the same answers,
    and each is the one the payloads written so far call for.
   */
  method RunAll<P(!new)>(lineCodec: LineCodec<P>, jsonCodec: JsonCodec<P>, ops: seq<Op<P>>, ids: seq<IdSource>)
    returns (memory: seq<Answer<P>>, file: seq<Answer<P>>, sql: seq<Answer<P>>)
    requires Lossless(lineCodec) && JsonLossless(jsonCodec)
    requires |ids| == |ops| && forall k :: 0 <= k < |ops| ==> IdsFit(ops[k], ids[k])
    ensures memory == file == sql && |memory| == |ops|
    ensures forall k {:trigger memory[k]} :: 0 <= k < |ops| ==>
        memory[k] == Answered(ops[k], Written(ops[..k], ops[k].stream))
  {
    var m := new MemoryEventStore<P>();
    var f := new FileJournal<P>(lineCodec);
    var q := new SqlEventJournal<P>(jsonCodec);
    ghost var trace;
    memory, file, sql, trace := Serve(m, f, q, ops, ids);
    forall k | 0 <= k < |ops|
      ensures memory[k] == Answered(ops[k], Written(ops[..k], ops[k].stream))
    {
      assert Follows(trace, ops, memory, k);
      TraceIsWritten(trace, ops, memory, k, ops[k].stream);
    }
  }
}
