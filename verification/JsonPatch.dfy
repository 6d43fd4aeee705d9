/**
  JSON Patch operations on documents, addressed by path strings.

  `remove` prints the parent's segments as a dotted path and parses that text
  again. It removes what the path names exactly when that round trip works.
 */
module JsonPatch {
  import opened Values
  import opened Documents
  import opened Paths

  datatype PatchOp =
    | Add(path: string, value: Unknown)
    | Replace(path: string, value: Unknown)
    | Remove(path: string)
    | Move(from: string, path: string)
    | Copy(from: string, path: string)
    | Test(path: string, value: Unknown)

  // ------------------------------------------------------------------
  // The operations of the source
  // ------------------------------------------------------------------

  function GetAtPath(doc: Unknown, path: string): Result<Unknown> {
    if path == "" then Ok(doc) else GetAt(doc, ParsePath(path))
  }

  function SetAtPath(doc: Unknown, path: string, value: Unknown): Result<Unknown> {
    if path == "" then Ok(value) else SetAt(doc, ParsePath(path), value)
  }

  function CreateAtPath(doc: Unknown, path: string, value: Unknown): Result<Unknown> {
    if path == "" then Ok(value) else CreateAt(doc, ParsePath(path), value)
  }

  function ApplyReplace(doc: Unknown, path: string, value: Unknown): Result<Unknown> {
    if GetAtPath(doc, path).Err? then Err else SetAtPath(doc, path, value)
  }

  function ApplyAdd(doc: Unknown, path: string, value: Unknown): Result<Unknown> {
    if path == "" then Ok(value)
    else if GetAtPath(doc, path).Ok? then ApplyReplace(doc, path, value)
    else CreateAtPath(doc, path, value)
  }

  /** Takes one element out of an object or array. */
  function RemoveChild(parent: Unknown, segment: Segment): Result<Unknown> {
    match (parent, segment)
    case (Object(fields), Field(name)) => if name in fields then Ok(Object(fields - {name})) else Err
    case (Array(items), Index(i)) => if i < |items| then Ok(Array(items[..i] + items[i + 1..])) else Err
    case _ => Err
  }

  function ApplyRemove(doc: Unknown, path: string): Result<Unknown> {
    var segments := ParsePath(path);
    if segments == [] then Err
    else
      var parentPath := SegmentsToDot(Init(segments));
      var parent := if Init(segments) == [] then Ok(doc) else GetAtPath(doc, parentPath);
      if parent.Err? then Err
      else
        var updated := RemoveChild(parent.value, Last(segments));
        if updated.Err? then Err
        else if Init(segments) == [] then updated
        else SetAtPath(doc, parentPath, updated.value)
  }

  function ApplyMove(doc: Unknown, from: string, path: string): Result<Unknown> {
    var value := GetAtPath(doc, from);
    if value.Err? then Err
    else
      var without := ApplyRemove(doc, from);
      if without.Err? then Err else ApplyAdd(without.value, path, value.value)
  }

  function ApplyCopy(doc: Unknown, from: string, path: string): Result<Unknown> {
    var value := GetAtPath(doc, from);
    if value.Err? then Err else ApplyAdd(doc, path, value.value)
  }

  function ApplyTest(doc: Unknown, path: string, value: Unknown): Result<Unknown> {
    if GetAtPath(doc, path) == Ok(value) then Ok(doc) else Err
  }

  function ApplyPatch(doc: Unknown, op: PatchOp): Result<Unknown> {
    match op
    case Add(path, value) => ApplyAdd(doc, path, value)
    case Replace(path, value) => ApplyReplace(doc, path, value)
    case Remove(path) => ApplyRemove(doc, path)
    case Move(from, path) => ApplyMove(doc, from, path)
    case Copy(from, path) => ApplyCopy(doc, from, path)
    case Test(path, value) => ApplyTest(doc, path, value)
  }

  function ApplyPatches(doc: Unknown, ops: seq<PatchOp>): Result<Unknown>
    decreases |ops|
  {
    if ops == [] then Ok(doc)
    else
      var next := ApplyPatch(doc, ops[0]);
      if next.Err? then Err else ApplyPatches(next.value, ops[1..])
  }

  // ------------------------------------------------------------------
  // What the operations mean on segments
  // ------------------------------------------------------------------

  /** Removal along a segment list, top-down. */
  function RemoveTop(doc: Unknown, path: Path): Result<Unknown> {
    if path == [] then Err
    else if |path| == 1 then RemoveChild(doc, path[0])
    else
      match Child(doc, path[0])
      case Err => Err
      case Ok(child) => Rewrap(doc, path[0], RemoveTop(child, path[1..]), false)
  }

  /** `add`: replaces what is readable, array elements included, and creates the rest. */
  lemma AddIsCreate(doc: Unknown, path: string, value: Unknown)
    ensures ApplyAdd(doc, path, value) == CreateTop(doc, ParsePath(path), value)
  {
    var segments := ParsePath(path);
    CreateIsTopDown(doc, segments, value);
    if path != "" && GetAtPath(doc, path).Ok? {
      SetIsTopDown(doc, segments, value);
      CreateTopOnReadable(doc, segments, value);
    }
  }

  lemma {:induction false} RemoveTopPeelsLast(doc: Unknown, init: Path, last: Segment)
    ensures RemoveTop(doc, init + [last]) ==
      (var parent := GetAt(doc, init);
       if parent.Err? then Err
       else
         var updated := RemoveChild(parent.value, last);
         if updated.Err? then Err else SetTop(doc, init, updated.value))
  {
    var path := init + [last];
    if init == [] {
      assert path == [last];
    } else {
      assert path[1..] == init[1..] + [last];
      if Child(doc, init[0]).Ok? {
        RemoveTopPeelsLast(Child(doc, init[0]).value, init[1..], last);
        if |init| == 1 {
          assert init[1..] == [];
        }
      }
    }
  }

  /** The source removes along the re-parsed parent path. */
  function Reparsed(init: Path): Path {
    if init == [] then [] else ParsePath(SegmentsToDot(init))
  }

  lemma RemoveUsesReparsed(doc: Unknown, path: string)
    requires ParsePath(path) != []
    ensures ApplyRemove(doc, path) == RemoveTop(doc, Reparsed(Init(ParsePath(path))) + [Last(ParsePath(path))])
  {
    var init, last := Init(ParsePath(path)), Last(ParsePath(path));
    RemoveTopPeelsLast(doc, Reparsed(init), last);
    if init != [] {
      var parent := GetAt(doc, Reparsed(init));
      if parent.Ok? {
        var updated := RemoveChild(parent.value, last);
        if updated.Ok? {
          SetIsTopDown(doc, Reparsed(init), updated.value);
        }
      }
    }
  }

  // ------------------------------------------------------------------
  // Exactly when `remove` removes what its path names
  // ------------------------------------------------------------------

  /** A document with nothing but the given path. */
  function Chain(path: Path, leaf: Unknown): Unknown {
    if path == [] then leaf else Level(path[0], Chain(path[1..], leaf))
  }

  lemma {:induction false} ChainReads(path: Path, leaf: Unknown)
    requires AppendFree(path)
    ensures GetAt(Chain(path, leaf), path) == Ok(leaf)
  {
    if path != [] {
      ChainReads(path[1..], leaf);
    }
  }

  lemma {:induction false} ChainReadsPrefix(path: Path, leaf: Unknown, n: nat)
    requires AppendFree(path) && n <= |path|
    ensures GetAt(Chain(path, leaf), path[..n]) == Ok(Chain(path[n..], leaf))
  {
    if n > 0 {
      assert path[..n][1..] == path[1..][..n - 1] && path[n..] == path[1..][n - 1..];
      ChainReadsPrefix(path[1..], leaf, n - 1);
    } else {
      assert path[n..] == path;
    }
  }

  lemma {:induction false} ChainSets(path: Path, a: Unknown, b: Unknown)
    requires AppendFree(path)
    ensures SetTop(Chain(path, a), path, b) == Ok(Chain(path, b))
  {
    if path != [] {
      var below, after := Chain(path[1..], a), Chain(path[1..], b);
      LevelSets(path[0], below, after);
      if |path| > 1 {
        ChainSets(path[1..], a, b);
      } else {
        assert path[1..] == [];
      }
    }
  }

  /** One level of a chain document. */
  function Level(segment: Segment, below: Unknown): Unknown {
    match segment
    case Field(name) => Object(map[name := below])
    case Index(i) => Array(seq(i, _ => Null) + [below])
    case Append => Array([])
  }

  lemma LevelSets(segment: Segment, below: Unknown, after: Unknown)
    requires segment != Append
    ensures Child(Level(segment, below), segment) == Ok(below)
    ensures Assign(Level(segment, below), segment, after, false) == Ok(Level(segment, after))
  {
    match segment {
      case Field(name) =>
        assert map[name := below][name := after] == map[name := after];
      case Index(i) =>
        var pad := seq(i, _ => Null);
        assert (pad + [below])[i := after] == pad + [after];
    }
  }

  function Size(value: Unknown): nat {
    match value
    case Object(fields) => |fields|
    case Array(items) => |items|
    case _ => 0
  }

  lemma RemoveChildShrinks(parent: Unknown, segment: Segment)
    requires RemoveChild(parent, segment).Ok?
    ensures Size(RemoveChild(parent, segment).value) == Size(parent) - 1
  {
    if parent.Object? {
      var fields, name := parent.fields, segment.name;
      assert (fields - {name}).Keys == fields.Keys - {name};
      assert |fields| == |fields.Keys| && |fields - {name}| == |(fields - {name}).Keys|;
    }
  }

  lemma NullLeafHasNothing(last: Segment, r: Path)
    requires last != Append && r != []
    requires GetAt(Chain([last], Null), r).Ok?
    ensures GetAt(Chain([last], Null), r) == Ok(Null)
  {
    var leaf := Chain([last], Null);
    assert [last][1..] == [];
    assert Child(leaf, r[0]) == Ok(Null);
    assert r[1..] == [];
  }

  lemma {:induction false} GetAtConcat(doc: Unknown, p: Path, r: Path)
    ensures GetAt(doc, p + r) == (var v := GetAt(doc, p); if v.Err? then Err else GetAt(v.value, r))
  {
    if p == [] {
      assert p + r == r;
    } else {
      assert (p + r)[1..] == p[1..] + r;
      if Child(doc, p[0]).Ok? {
        GetAtConcat(Child(doc, p[0]).value, p[1..], r);
      }
    }
  }

  /** What is left of a chain document when its last level is removed. */
  function Emptied(last: Segment): Unknown {
    if last.Index? then Array(seq(last.index, _ => Null)) else Object(map[])
  }

  lemma LeafRemoves(last: Segment)
    requires last != Append
    ensures RemoveChild(Chain([last], Null), last) == Ok(Emptied(last))
    ensures Size(Emptied(last)) == Size(Chain([last], Null)) - 1
  {
    assert [last][1..] == [];
    assert Child(Level(last, Null), last) == Ok(Null);
    match last {
      case Field(name) => assert map[name := Null] - {name} == map[];
      case Index(i) =>
        var pad := seq(i, _ => Null);
        assert (pad + [Null])[..i] + (pad + [Null])[i + 1..] == pad;
    }
    RemoveChildShrinks(Chain([last], Null), last);
  }

  lemma ChainRemoves(init: Path, last: Segment)
    requires AppendFree(init) && last != Append
    ensures RemoveTop(Chain(init, Chain([last], Null)), init + [last]) == Ok(Chain(init, Emptied(last)))
  {
    var leaf := Chain([last], Null);
    LeafRemoves(last);
    ChainReads(init, leaf);
    ChainSets(init, leaf, Emptied(last));
    RemoveTopPeelsLast(Chain(init, leaf), init, last);
  }

  /** Removing along any other parent path gives another result on the chain document. */
  lemma OtherParentDiffers(init: Path, last: Segment, q: Path)
    requires AppendFree(init) && last != Append && q != init
    ensures var doc := Chain(init, Chain([last], Null));
            RemoveTop(doc, init + [last]).Ok? && RemoveTop(doc, q + [last]) != RemoveTop(doc, init + [last])
  {
    ChainRemoves(init, last);
    OtherRemovalDiffers(init, last, Chain([last], Null), Emptied(last), q);
  }

  lemma OtherRemovalDiffers(init: Path, last: Segment, leaf: Unknown, rest: Unknown, q: Path)
    requires AppendFree(init) && last != Append && q != init
    requires leaf == Chain([last], Null) && rest == Emptied(last)
    ensures RemoveTop(Chain(init, leaf), q + [last]) != Ok(Chain(init, rest))
  {
    var doc := Chain(init, leaf);
    LeafRemoves(last);
    ChainReads(init, leaf);
    ChainReads(init, rest);
    RemoveTopPeelsLast(doc, q, last);
    var other := RemoveTop(doc, q + [last]);
    if other.Ok? {
      var parent := GetAt(doc, q).value;
      var updated := RemoveChild(parent, last).value;
      RemoveChildShrinks(parent, last);
      SetTopThenGet(doc, q, updated);
      if init <= q {
        GetAtConcat(doc, init, q[|init|..]);
        assert q == init + q[|init|..];
        NullLeafHasNothing(last, q[|init|..]);
      } else if q <= init {
        assert Size(updated) == Size(parent) - 1;
        LevelAboveKeepsSize(init, leaf, rest, q);
      } else {
        SetTopFrame(doc, q, updated, init);
      }
    }
  }

  /** Both chains have a value of the same size at every place above their ends. */
  lemma LevelAboveKeepsSize(init: Path, leaf: Unknown, rest: Unknown, q: Path)
    requires AppendFree(init) && q <= init && q != init
    ensures GetAt(Chain(init, leaf), q).Ok? && GetAt(Chain(init, rest), q).Ok?
    ensures Size(GetAt(Chain(init, leaf), q).value) == Size(GetAt(Chain(init, rest), q).value)
  {
    ChainReadsPrefix(init, leaf, |q|);
    ChainReadsPrefix(init, rest, |q|);
    assert init[..|q|] == q;
    assert Size(Chain(init[|q|..], rest)) == Size(Chain(init[|q|..], leaf));
  }

  /** Nothing is read or removed at an append segment. */
  lemma {:induction false} AppendReadsNothing(doc: Unknown, path: Path)
    requires !AppendFree(path)
    ensures GetAt(doc, path) == Err
  {
    if path[0] != Append && Child(doc, path[0]).Ok? {
      assert !AppendFree(path[1..]);
      AppendReadsNothing(Child(doc, path[0]).value, path[1..]);
    }
  }

  lemma AppendRemovesNothing(doc: Unknown, init: Path, last: Segment)
    requires !AppendFree(init) || last == Append
    ensures RemoveTop(doc, init + [last]) == Err
  {
    RemoveTopPeelsLast(doc, init, last);
    if !AppendFree(init) {
      AppendReadsNothing(doc, init);
    }
  }

  /** `remove` cannot go wrong: its parent is read back as it is, or neither path removes anything. */
  ghost predicate RemoveIsSafe(init: Path, last: Segment) {
    DotPrintable(init) || last == Append || (!AppendFree(init) && !AppendFree(Reparsed(init)))
  }

  /** Two different parents, one of them free of appends, give different removals on some document. */
  lemma ParentsDiffer(p: Path, q: Path, last: Segment) returns (doc: Unknown)
    requires p != q && last != Append && (AppendFree(p) || AppendFree(q))
    ensures RemoveTop(doc, p + [last]) != RemoveTop(doc, q + [last])
  {
    if AppendFree(p) {
      doc := Chain(p, Chain([last], Null));
      OtherParentDiffers(p, last, q);
    } else {
      doc := Chain(q, Chain([last], Null));
      OtherParentDiffers(q, last, p);
    }
  }

  /**
    Main theorem: `remove` means top-down removal on every document if and only if
    the parent can be spelled as a dotted path, or appends keep both the parent
    and its re-parsed form from removing anything.
   */
  lemma RemoveIsFaithfulIff(path: string)
    requires ParsePath(path) != []
    ensures (forall doc :: ApplyRemove(doc, path) == RemoveTop(doc, ParsePath(path)))
       <==> RemoveIsSafe(Init(ParsePath(path)), Last(ParsePath(path)))
  {
    var segments := ParsePath(path);
    var init, last := Init(segments), Last(segments);
    assert segments == init + [last];
    DotRoundTripIff(init);
    if RemoveIsSafe(init, last) {
      forall doc
        ensures ApplyRemove(doc, path) == RemoveTop(doc, segments)
      {
        RemoveUsesReparsed(doc, path);
        if !DotPrintable(init) {
          AppendRemovesNothing(doc, init, last);
          AppendRemovesNothing(doc, Reparsed(init), last);
        }
      }
    } else {
      var doc := ParentsDiffer(Reparsed(init), init, last);
      RemoveUsesReparsed(doc, path);
      assert ApplyRemove(doc, path) != RemoveTop(doc, segments);
    }
  }

  /** The root has no parent: `remove` fails on it. */
  lemma RootIsNeverRemoved(doc: Unknown, path: string)
    requires ParsePath(path) == []
    ensures ApplyRemove(doc, path) == RemoveTop(doc, ParsePath(path)) == Err
  {
  }

  // ------------------------------------------------------------------
  // What a removal leaves
  // ------------------------------------------------------------------

  /** Where the element that has index `j` after a removal at `i` was before. */
  function Shifted(i: nat, j: nat): nat {
    if j < i then j else j + 1
  }

  /** `after` is `before` without what stands at `last` below `parent`. */
  ghost predicate TakesOut(before: Unknown, after: Unknown, parent: Path, last: Segment) {
    && (forall other :: Incomparable(parent, other) ==> GetAt(after, other) == GetAt(before, other))
    && (last.Index? ==> forall j, rest :: KeepsItem(before, after, parent, last.index, j, rest))
    && (last.Field? ==> forall name, rest :: KeepsField(before, after, parent, last.name, name, rest))
  }

  /** Elements before the removed one stay, and those after it move up. */
  ghost predicate KeepsItem(before: Unknown, after: Unknown, parent: Path, i: nat, j: nat, rest: Path) {
    GetAt(after, parent + ([Index(j)] + rest)) == GetAt(before, parent + ([Index(Shifted(i, j))] + rest))
  }

  /** The removed field cannot be read any more, and the others stay. */
  ghost predicate KeepsField(before: Unknown, after: Unknown, parent: Path, removed: string, name: string, rest: Path) {
    GetAt(after, parent + ([Field(name)] + rest)) ==
      if name == removed then Err else GetAt(before, parent + ([Field(name)] + rest))
  }

  lemma {:induction false} RemoveTopSucceedsIff(doc: Unknown, path: Path)
    ensures RemoveTop(doc, path).Ok? <==> path != [] && GetAt(doc, path).Ok?
  {
    if |path| == 1 {
      assert path[1..] == [];
    } else if |path| > 1 && Child(doc, path[0]).Ok? {
      var child := Child(doc, path[0]).value;
      RemoveTopSucceedsIff(child, path[1..]);
      var inner := RemoveTop(child, path[1..]);
      AssignSame(doc, path[0], false);
      if inner.Ok? {
        AssignSucceedsForAll(doc, path[0], child, inner.value, false);
      }
    }
  }

  lemma RemoveChildKeeps(level: Unknown, last: Segment, other: Segment)
    requires RemoveChild(level, last).Ok?
    ensures last.Index? && other.Index? ==>
      Child(RemoveChild(level, last).value, other) == Child(level, Index(Shifted(last.index, other.index)))
    ensures last.Field? && other.Field? ==>
      Child(RemoveChild(level, last).value, other) == if other == last then Err else Child(level, other)
  {
  }

  lemma RemoveTopTakesOut(doc: Unknown, init: Path, last: Segment)
    requires RemoveTop(doc, init + [last]).Ok?
    ensures TakesOut(doc, RemoveTop(doc, init + [last]).value, init, last)
  {
    var after := RemoveTop(doc, init + [last]).value;
    RemoveTopPeelsLast(doc, init, last);
    var level := GetAt(doc, init).value;
    var left := RemoveChild(level, last).value;
    SetTopThenGet(doc, init, left);
    forall other | Incomparable(init, other)
      ensures GetAt(after, other) == GetAt(doc, other)
    {
      SetTopFrame(doc, init, left, other);
    }
    forall j, rest | last.Index?
      ensures KeepsItem(doc, after, init, last.index, j, rest)
    {
      RemoveChildKeeps(level, last, Index(j));
      ReadBelow(after, left, init, Index(j), rest);
      ReadBelow(doc, level, init, Index(Shifted(last.index, j)), rest);
    }
    forall name, rest | last.Field?
      ensures KeepsField(doc, after, init, last.name, name, rest)
    {
      RemoveChildKeeps(level, last, Field(name));
      ReadBelow(after, left, init, Field(name), rest);
      ReadBelow(doc, level, init, Field(name), rest);
    }
  }

  lemma ReadBelow(doc: Unknown, level: Unknown, init: Path, segment: Segment, rest: Path)
    requires GetAt(doc, init) == Ok(level)
    ensures GetAt(doc, init + ([segment] + rest)) ==
      if Child(level, segment).Err? then Err else GetAt(Child(level, segment).value, rest)
  {
    GetAtConcat(doc, init, [segment] + rest);
    assert ([segment] + rest)[1..] == rest;
  }

  /**
    Main theorem: `remove` succeeds exactly on what can be read below the re-parsed
    parent, and takes out that one element and nothing else.
   */
  lemma RemoveTakesOut(doc: Unknown, path: string)
    requires ParsePath(path) != []
    ensures var parent, last := Reparsed(Init(ParsePath(path))), Last(ParsePath(path));
            && (ApplyRemove(doc, path).Ok? <==> GetAt(doc, parent + [last]).Ok?)
            && (ApplyRemove(doc, path).Ok? ==> TakesOut(doc, ApplyRemove(doc, path).value, parent, last))
  {
    var parent, last := Reparsed(Init(ParsePath(path))), Last(ParsePath(path));
    RemoveUsesReparsed(doc, path);
    RemoveTopSucceedsIff(doc, parent + [last]);
    if ApplyRemove(doc, path).Ok? {
      RemoveTopTakesOut(doc, parent, last);
    }
  }

  // ------------------------------------------------------------------
  // Inverses
  // ------------------------------------------------------------------

  /** The path names a field whose parent can be spelled as a dotted path. */
  ghost predicate FieldPath(path: Path) {
    path != [] && Last(path).Field? && DotPrintable(Init(path))
  }

  lemma RemoveIsTopDown(doc: Unknown, path: string)
    requires ParsePath(path) != [] && DotPrintable(Init(ParsePath(path)))
    ensures ApplyRemove(doc, path) == RemoveTop(doc, ParsePath(path))
  {
    var segments := ParsePath(path);
    assert segments == Init(segments) + [Last(segments)];
    DotRoundTripIff(Init(segments));
    RemoveUsesReparsed(doc, path);
  }

  /** The path ends in a field, or in the last index of its array. */
  predicate EndsItsParent(doc: Unknown, path: Path)
    requires path != []
  {
    || Last(path).Field?
    || (var parent := GetAt(doc, Init(path));
        && parent.Ok? && parent.value.Array?
        && Last(path).Index? && Last(path).index == |parent.value.items| - 1)
  }

  lemma EndsItsParentBelow(doc: Unknown, path: Path)
    requires |path| > 1 && Child(doc, path[0]).Ok?
    ensures EndsItsParent(doc, path) <==> EndsItsParent(Child(doc, path[0]).value, path[1..])
  {
    assert Init(path)[0] == path[0] && Init(path)[1..] == Init(path[1..]);
  }

  lemma RemoveThenCreateChild(doc: Unknown, segment: Segment)
    requires Child(doc, segment).Ok?
    ensures RemoveChild(doc, segment).Ok?
    ensures Assign(RemoveChild(doc, segment).value, segment, Child(doc, segment).value, true) == Ok(doc) <==>
            segment.Field? || segment.index == |doc.items| - 1
  {
    match (doc, segment)
    case (Object(fields), Field(name)) =>
      assert (fields - {name})[name := fields[name]] == fields;
    case (Array(items), Index(i)) =>
      var left := items[..i] + items[i + 1..];
      if i == |items| - 1 {
        assert left + [items[i]] == items;
      } else {
        assert |left[i := items[i]]| < |items|;
      }
  }

  /** Creating what was removed restores the document exactly if it was a field or the end of an array. */
  lemma {:induction false} RemoveThenCreateIff(doc: Unknown, path: Path)
    requires path != [] && GetAt(doc, path).Ok?
    ensures RemoveTop(doc, path).Ok?
    ensures CreateTop(RemoveTop(doc, path).value, path, GetAt(doc, path).value) == Ok(doc) <==> EndsItsParent(doc, path)
  {
    if |path| == 1 {
      assert path[1..] == [] && Init(path) == [];
      RemoveThenCreateChild(doc, path[0]);
    } else {
      var child := Child(doc, path[0]).value;
      RemoveThenCreateIff(child, path[1..]);
      EndsItsParentBelow(doc, path);
      var without := RemoveTop(child, path[1..]).value;
      AssignSame(doc, path[0], false);
      AssignSucceedsForAll(doc, path[0], child, without, false);
      AssignThenChild(doc, path[0], without, false);
      RewrapIff(doc, path[0], without, CreateTop(without, path[1..], GetAt(doc, path).value));
    }
  }

  /** Writing a level twice restores it exactly if the second write puts back what was there. */
  lemma RewrapIff(doc: Unknown, segment: Segment, other: Unknown, again: Result<Unknown>)
    requires Child(doc, segment).Ok? && Assign(doc, segment, other, false).Ok?
    ensures Rewrap(Assign(doc, segment, other, false).value, segment, again, true) == Ok(doc) <==>
            again == Child(doc, segment)
  {
    RewrapUndo(doc, segment, other);
    var without := Assign(doc, segment, other, false).value;
    if again.Ok? && Assign(without, segment, again.value, true).Ok? {
      AssignThenChild(without, segment, again.value, true);
    }
  }

  lemma {:induction false} RemovedFieldIsGone(doc: Unknown, path: Path)
    requires path != [] && Last(path).Field? && GetAt(doc, path).Ok? && RemoveTop(doc, path).Ok?
    ensures GetAt(RemoveTop(doc, path).value, path) == Err
  {
    if |path| > 1 {
      var child := Child(doc, path[0]).value;
      RemovedFieldIsGone(child, path[1..]);
      AssignThenChild(doc, path[0], RemoveTop(child, path[1..]).value, false);
    }
  }

  /** Writing a level twice, the second time with what was there, changes nothing. */
  lemma RewrapUndo(doc: Unknown, segment: Segment, other: Unknown)
    requires Child(doc, segment).Ok? && Assign(doc, segment, other, false).Ok?
    ensures Assign(Assign(doc, segment, other, false).value, segment, Child(doc, segment).value, true) == Ok(doc)
  {
    match (doc, segment)
    case (Object(fields), Field(name)) =>
      assert fields[name := other][name := fields[name]] == fields;
    case (Array(items), Index(i)) =>
      assert items[i := other][i := items[i]] == items;
  }

  /** The parent of an absent field is an object. */
  ghost predicate ReadyFor(doc: Unknown, path: Path) {
    && path != []
    && Last(path).Field?
    && GetAt(doc, path).Err?
    && GetAt(doc, Init(path)).Ok?
    && GetAt(doc, Init(path)).value.Object?
  }

  lemma ReadyBelow(doc: Unknown, path: Path)
    requires ReadyFor(doc, path) && |path| > 1
    ensures Child(doc, path[0]).Ok? && ReadyFor(Child(doc, path[0]).value, path[1..])
  {
    assert Init(path)[0] == path[0] && Init(path)[1..] == Init(path[1..]);
  }

  lemma {:induction false} CreateThenRemove(doc: Unknown, path: Path, x: Unknown)
    requires ReadyFor(doc, path)
    ensures CreateTop(doc, path, x).Ok?
    ensures GetAt(CreateTop(doc, path, x).value, path) == Ok(x)
    ensures RemoveTop(CreateTop(doc, path, x).value, path) == Ok(doc)
  {
    if |path| == 1 {
      assert Init(path) == [];
      assert path[1..] == [];
      var fields, name := doc.fields, path[0].name;
      assert GetAt(doc, path) == Child(doc, path[0]);
      assert fields[name := x] - {name} == fields;
    } else {
      ReadyBelow(doc, path);
      var child := Child(doc, path[0]).value;
      CreateThenRemove(child, path[1..], x);
      var with := CreateTop(child, path[1..], x).value;
      AssignSame(doc, path[0], true);
      AssignSucceedsForAll(doc, path[0], child, with, true);
      AssignThenChild(doc, path[0], with, true);
      RewrapUndoCreate(doc, path[0], with);
    }
  }

  lemma RewrapUndoCreate(doc: Unknown, segment: Segment, other: Unknown)
    requires Child(doc, segment).Ok? && Assign(doc, segment, other, true).Ok?
    ensures Assign(Assign(doc, segment, other, true).value, segment, Child(doc, segment).value, false) == Ok(doc)
  {
    match (doc, segment)
    case (Object(fields), Field(name)) =>
      assert fields[name := other][name := fields[name]] == fields;
    case (Array(items), Index(i)) =>
      assert items[i := other][i := items[i]] == items;
  }

  lemma {:induction false} RemoveFrame(doc: Unknown, path: Path, other: Path)
    requires RemoveTop(doc, path).Ok? && Last(path).Field? && Incomparable(path, other)
    ensures GetAt(RemoveTop(doc, path).value, other) == GetAt(doc, other)
  {
    if path[0] == other[0] {
      IncomparableTails(path, other);
      var child := Child(doc, path[0]).value;
      RemoveFrame(child, path[1..], other[1..]);
      AssignThenChild(doc, path[0], RemoveTop(child, path[1..]).value, false);
    } else if |path| > 1 {
      AssignLeavesOthers(doc, path[0], RemoveTop(Child(doc, path[0]).value, path[1..]).value, false, other[0]);
    }
  }

  /** Removing a field keeps every object on the way an object. */
  lemma {:induction false} RemoveKeepsObjects(doc: Unknown, path: Path, n: nat)
    requires RemoveTop(doc, path).Ok? && Last(path).Field? && n < |path|
    requires GetAt(doc, path[..n]).Ok? && GetAt(doc, path[..n]).value.Object?
    ensures GetAt(RemoveTop(doc, path).value, path[..n]).Ok?
    ensures GetAt(RemoveTop(doc, path).value, path[..n]).value.Object?
  {
    if n > 0 {
      assert path[..n][1..] == path[1..][..n - 1];
      var child := Child(doc, path[0]).value;
      RemoveKeepsObjects(child, path[1..], n - 1);
      AssignThenChild(doc, path[0], RemoveTop(child, path[1..]).value, false);
    }
  }

  lemma TwoPatches(doc: Unknown, first: PatchOp, second: PatchOp)
    ensures ApplyPatches(doc, [first, second]) ==
      (var middle := ApplyPatch(doc, first); if middle.Err? then Err else ApplyPatch(middle.value, second))
  {
    assert [first, second][1..] == [second] && [second][1..] == [];
    var middle := ApplyPatch(doc, first);
    if middle.Ok? {
      assert ApplyPatches(middle.value, [second]) == ApplyPatch(middle.value, second);
    }
  }

  /**
    Main theorem: removing a value and adding it back restores the document if and
    only if it was a field or the last element of its array.
   */
  lemma RemoveThenAddRestoresIff(doc: Unknown, path: string)
    requires ParsePath(path) != [] && DotPrintable(Init(ParsePath(path))) && GetAtPath(doc, path).Ok?
    ensures ApplyRemove(doc, path).Ok?
    ensures ApplyPatches(doc, [Remove(path), Add(path, GetAtPath(doc, path).value)]) == Ok(doc) <==>
            EndsItsParent(doc, ParsePath(path))
  {
    TwoPatches(doc, Remove(path), Add(path, GetAtPath(doc, path).value));
    RemoveIsTopDown(doc, path);
    RemoveThenCreateIff(doc, ParsePath(path));
    AddIsCreate(ApplyRemove(doc, path).value, path, GetAtPath(doc, path).value);
  }

  /** Removing `a` leaves an absent field `b` ready. */
  lemma RemoveKeepsReady(doc: Unknown, a: Path, b: Path)
    requires a != [] && Last(a).Field? && GetAt(doc, a).Ok? && RemoveTop(doc, a).Ok?
    requires ReadyFor(doc, b) && Incomparable(a, b)
    ensures ReadyFor(RemoveTop(doc, a).value, b)
  {
    RemoveFrame(doc, a, b);
    var init := Init(b);
    assert init <= b;
    PrefixTransitive(a, init, b);
    if init <= a {
      assert a[..|init|] == init;
      assert |init| == |a| ==> a == init;
      RemoveKeepsObjects(doc, a, |init|);
    } else {
      RemoveFrame(doc, a, init);
    }
  }

  lemma PrefixTransitive(p: Path, q: Path, r: Path)
    ensures p <= q && q <= r ==> p <= r
  {
  }

  /** A copy to an absent field reads the same as its source, and removing it restores the document. */
  lemma CopyThenRemoveRestores(doc: Unknown, from: string, to: string, target: Path)
    requires ParsePath(to) == target && FieldPath(target) && ReadyFor(doc, target) && GetAtPath(doc, from).Ok?
    ensures ApplyPatch(doc, Copy(from, to)).Ok?
    ensures GetAtPath(ApplyPatch(doc, Copy(from, to)).value, to) == GetAtPath(doc, from)
    ensures ApplyPatches(doc, [Copy(from, to), Remove(to)]) == Ok(doc)
  {
    var x := GetAtPath(doc, from).value;
    CopyIsCreate(doc, from, to);
    CreateThenRemove(doc, target, x);
    TwoPatches(doc, Copy(from, to), Remove(to));
    RemoveIs(CreateTop(doc, target, x).value, to);
  }

  lemma CopyIsCreate(doc: Unknown, from: string, to: string)
    requires GetAtPath(doc, from).Ok?
    ensures ApplyPatch(doc, Copy(from, to)) == CreateTop(doc, ParsePath(to), GetAtPath(doc, from).value)
  {
    CopyIsAdd(doc, from, to);
    AddIsCreate(doc, to, GetAtPath(doc, from).value);
  }

  lemma RemoveIs(doc: Unknown, path: string)
    requires FieldPath(ParsePath(path))
    ensures ApplyPatch(doc, Remove(path)) == RemoveTop(doc, ParsePath(path))
  {
    RemoveIsTopDown(doc, path);
  }

  /** A move whose value can be read removes it and creates it at the target. */
  lemma MoveIsCreate(doc: Unknown, from: string, to: string)
    requires FieldPath(ParsePath(from)) && GetAtPath(doc, from).Ok?
    ensures ApplyPatch(doc, Move(from, to)) ==
      (var without := RemoveTop(doc, ParsePath(from));
       if without.Err? then Err else CreateTop(without.value, ParsePath(to), GetAtPath(doc, from).value))
  {
    RemoveIsTopDown(doc, from);
    var without := RemoveTop(doc, ParsePath(from));
    if without.Ok? {
      AddIsCreate(without.value, to, GetAtPath(doc, from).value);
    }
  }

  /** Main theorem: moving a field away to an absent field and moving it back restores the document. */
  lemma MoveThereAndBack(doc: Unknown, from: string, to: string)
    requires FieldPath(ParsePath(from)) && FieldPath(ParsePath(to))
    requires Incomparable(ParsePath(from), ParsePath(to))
    requires GetAtPath(doc, from).Ok? && ReadyFor(doc, ParsePath(to))
    ensures ApplyPatch(doc, Move(from, to)).Ok?
    ensures GetAtPath(ApplyPatch(doc, Move(from, to)).value, to) == GetAtPath(doc, from)
    ensures ApplyPatches(doc, [Move(from, to), Move(to, from)]) == Ok(doc)
  {
    var a, b, x := ParsePath(from), ParsePath(to), GetAtPath(doc, from).value;
    MoveIsCreate(doc, from, to);
    RemoveThenCreateIff(doc, a);
    RemovedFieldIsGone(doc, a);
    var without := RemoveTop(doc, a).value;
    RemoveKeepsReady(doc, a, b);
    CreateThenRemove(without, b, x);
    var moved := CreateTop(without, b, x).value;
    MoveIsCreate(moved, to, from);
    TwoPatches(doc, Move(from, to), Move(to, from));
  }

  /** A dot in the parent's name is enough: on some document `remove` then removes something else, or fails. */
  lemma DottedParentRemovesElsewhere(name: string, last: string)
    requires '.' in name && Printable(Field(name)) && Printable(Field(last))
    ensures var path := [Field(name), Field(last)];
            exists doc :: ApplyRemove(doc, PrintPointer(path)) != RemoveTop(doc, path)
  {
    var path := [Field(name), Field(last)];
    PointerRoundTrips(path);
    assert Init(path) == [Field(name)];
    assert !DotPrintable([Field(name)]) by { assert !DotSegment([Field(name)][0]); }
    RemoveIsFaithfulIff(PrintPointer(path));
  }

  // ------------------------------------------------------------------
  // Patch lists
  // ------------------------------------------------------------------

  /** `add` succeeds exactly where `create` can build, and puts its value there and nowhere else. */
  lemma AddLaws(doc: Unknown, path: string, value: Unknown, other: Path)
    ensures var target, added := ParsePath(path), ApplyPatch(doc, Add(path, value));
            && (added.Ok? <==> CanCreate(doc, target))
            && (added.Ok? && AppendFree(target) ==> GetAtPath(added.value, path) == Ok(value))
            && (added.Ok? && AppendFree(target) && Incomparable(target, other) ==>
                  GetAt(added.value, other) == GetAt(doc, other))
  {
    AddIsCreate(doc, path, value);
    CreateTopSucceedsIff(doc, ParsePath(path), value);
    CreateIsTopDown(doc, ParsePath(path), value);
    CreateLaws(doc, ParsePath(path), value, other);
  }

  /** `replace` succeeds exactly on what can be read, and puts its value there and nowhere else. */
  lemma ReplaceLaws(doc: Unknown, path: string, value: Unknown, other: Path)
    ensures var target, replaced := ParsePath(path), ApplyPatch(doc, Replace(path, value));
            && (replaced.Ok? <==> GetAt(doc, target).Ok?)
            && (replaced.Ok? ==> GetAtPath(replaced.value, path) == Ok(value))
            && (replaced.Ok? && Incomparable(target, other) ==> GetAt(replaced.value, other) == GetAt(doc, other))
  {
    var segments := ParsePath(path);
    if GetAtPath(doc, path).Ok? {
      SetLaws(doc, segments, value, value, other);
      SetIsTopDown(doc, segments, value);
      SetOnReadable(doc, segments, value);
    }
  }

  /** Moving is removing what was read and adding it at the target, as section 4.4 of RFC 6902 says. */
  lemma MoveIsRemoveAndAdd(doc: Unknown, from: string, to: string)
    ensures ApplyPatch(doc, Move(from, to)) ==
      if GetAtPath(doc, from).Err? then Err
      else ApplyPatches(doc, [Remove(from), Add(to, GetAtPath(doc, from).value)])
  {
    if GetAtPath(doc, from).Ok? {
      TwoPatches(doc, Remove(from), Add(to, GetAtPath(doc, from).value));
    }
  }

  /** Copying is adding what is read at the source, as section 4.5 of RFC 6902 says. */
  lemma CopyIsAdd(doc: Unknown, from: string, to: string)
    ensures ApplyPatch(doc, Copy(from, to)) ==
      if GetAtPath(doc, from).Err? then Err else ApplyPatch(doc, Add(to, GetAtPath(doc, from).value))
  {
  }

  /** A test lets the rest of a patch through exactly when the value at its path is the given one. */
  lemma TestGuards(doc: Unknown, path: string, value: Unknown, ops: seq<PatchOp>)
    ensures ApplyPatches(doc, [Test(path, value)] + ops) ==
      if GetAt(doc, ParsePath(path)) == Ok(value) then ApplyPatches(doc, ops) else Err
  {
    assert ([Test(path, value)] + ops)[1..] == ops;
  }

  /** A list of operations may be cut anywhere: the first failure fails the whole list. */
  lemma {:induction false} PatchesInTwo(doc: Unknown, first: seq<PatchOp>, second: seq<PatchOp>)
    ensures ApplyPatches(doc, first + second) ==
      (var middle := ApplyPatches(doc, first); if middle.Err? then Err else ApplyPatches(middle.value, second))
    decreases |first|
  {
    if first == [] {
      assert first + second == second;
    } else {
      assert (first + second)[1..] == first[1..] + second;
      var next := ApplyPatch(doc, first[0]);
      if next.Ok? {
        PatchesInTwo(next.value, first[1..], second);
      }
    }
  }

  /** Replacing at two places, neither inside the other, gives the same document in either order. */
  lemma ReplacesCommute(doc: Unknown, p: string, a: Unknown, q: string, b: Unknown)
    requires Incomparable(ParsePath(p), ParsePath(q))
    ensures ApplyPatches(doc, [Replace(p, a), Replace(q, b)]) == ApplyPatches(doc, [Replace(q, b), Replace(p, a)])
  {
    ReplacePair(doc, p, a, q, b);
    ReplacePair(doc, q, b, p, a);
    SetsCommute(doc, ParsePath(p), a, ParsePath(q), b);
  }

  lemma ReplacePair(doc: Unknown, p: string, a: Unknown, q: string, b: Unknown)
    requires Incomparable(ParsePath(p), ParsePath(q))
    ensures ApplyPatches(doc, [Replace(p, a), Replace(q, b)]) ==
      if GetAtPath(doc, p).Err? || GetAtPath(doc, q).Err? then Err else SetTwice(doc, ParsePath(p), a, ParsePath(q), b)
  {
    var first := ApplyReplace(doc, p, a);
    ReplaceIsSet(doc, p, a);
    assert [Replace(p, a), Replace(q, b)][1..] == [Replace(q, b)];
    if first.Ok? {
      SetTopFrame(doc, ParsePath(p), a, ParsePath(q));
      ReplaceIsSet(first.value, q, b);
      assert ApplyPatches(first.value, [Replace(q, b)]) == ApplyReplace(first.value, q, b);
    }
  }

  lemma ReplaceIsSet(doc: Unknown, path: string, value: Unknown)
    ensures ApplyReplace(doc, path, value) ==
      if GetAtPath(doc, path).Err? then Err else SetTop(doc, ParsePath(path), value)
    ensures GetAtPath(doc, path) == GetAt(doc, ParsePath(path))
  {
    SetIsTopDown(doc, ParsePath(path), value);
  }
}
