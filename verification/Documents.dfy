/**
  Reading and updating nested documents along a list of path segments: the
  source's bottom-up updates equal plain top-down ones and obey the lens laws.
 */
module Documents {
  import opened Values

  datatype Segment = Field(name: string) | Index(index: nat) | Append

  type Path = seq<Segment>

  // ------------------------------------------------------------------
  // Reading
  // ------------------------------------------------------------------

  function Child(value: Unknown, segment: Segment): Result<Unknown> {
    match (value, segment)
    case (Object(fields), Field(name)) => if name in fields then Ok(fields[name]) else Err
    case (Array(items), Index(i)) => if i < |items| then Ok(items[i]) else Err
    case _ => Err
  }

  function GetAt(value: Unknown, path: Path): Result<Unknown> {
    if path == [] then Ok(value)
    else
      match Child(value, path[0])
      case Ok(child) => GetAt(child, path[1..])
      case Err => Err
  }

  method GetAtSegments(value: Unknown, path: Path) returns (r: Result<Unknown>)
    ensures r == GetAt(value, path)
  {
    var current := value;
    for k := 0 to |path|
      invariant GetAt(value, path) == GetAt(current, path[k..])
    {
      var child := Child(current, path[k]);
      if child.Err? {
        return Err;
      }
      current := child.value;
    }
    r := Ok(current);
  }

  // ------------------------------------------------------------------
  // The source's bottom-up updates
  // ------------------------------------------------------------------

  function Assign(parent: Unknown, segment: Segment, value: Unknown, allowAppend: bool): Result<Unknown> {
    match (parent, segment)
    case (Object(fields), Field(name)) => Ok(Object(fields[name := value]))
    case (Array(items), Index(i)) =>
      if i > |items| || (!allowAppend && i >= |items|) then Err
      else if i == |items| then Ok(Array(items + [value]))
      else Ok(Array(items[i := value]))
    case (Array(items), Append) => if allowAppend then Ok(Array(items + [value])) else Err
    case _ => Err
  }

  function DefaultContainer(segment: Segment): Unknown {
    if segment.Field? then Object(map[]) else Array([])
  }

  function Init(path: Path): Path
    requires path != []
  {
    path[..|path| - 1]
  }

  function Last(path: Path): Segment
    requires path != []
  {
    path[|path| - 1]
  }

  function SetAt(value: Unknown, path: Path, newValue: Unknown): Result<Unknown>
    decreases |path|
  {
    if path == [] then Ok(newValue)
    else
      var parent := if Init(path) == [] then Ok(value) else GetAt(value, Init(path));
      if parent.Err? then Err
      else
        var updated := Assign(parent.value, Last(path), newValue, false);
        if updated.Err? then Err
        else if Init(path) == [] then updated
        else SetAt(value, Init(path), updated.value)
  }

  function CreateAt(value: Unknown, path: Path, newValue: Unknown): Result<Unknown>
    decreases |path|
  {
    if path == [] then Ok(newValue)
    else
      var parent :=
        if Init(path) == [] then Ok(value)
        else if GetAt(value, Init(path)).Ok? then GetAt(value, Init(path))
        else
          var ensured := CreateAt(value, Init(path), DefaultContainer(Last(path)));
          if ensured.Err? then Err else GetAt(ensured.value, Init(path));
      if parent.Err? then Err
      else
        var updated := Assign(parent.value, Last(path), newValue, true);
        if updated.Err? then Err
        else if Init(path) == [] then updated
        else CreateAt(value, Init(path), updated.value)
  }

  // ------------------------------------------------------------------
  // Plain top-down updates
  // ------------------------------------------------------------------

  /** Replace along an existing path; only the last field of an object may be new. */
  function SetTop(value: Unknown, path: Path, newValue: Unknown): Result<Unknown> {
    if path == [] then Ok(newValue)
    else if |path| == 1 then Assign(value, path[0], newValue, false)
    else
      match Child(value, path[0])
      case Err => Err
      case Ok(child) => Rewrap(value, path[0], SetTop(child, path[1..], newValue), false)
  }

  /** Replace or create: a missing level starts as an empty container of the kind the next segment asks for. */
  function CreateTop(value: Unknown, path: Path, newValue: Unknown): Result<Unknown>
    decreases |path|
  {
    if path == [] then Ok(newValue)
    else if |path| == 1 then Assign(value, path[0], newValue, true)
    else if path[0] == Append then Err
    else Rewrap(value, path[0], CreateTop(ChildOrNew(value, path[0], path[1]), path[1..], newValue), true)
  }

  function Rewrap(value: Unknown, segment: Segment, child: Result<Unknown>, allowAppend: bool): Result<Unknown> {
    if child.Err? then Err else Assign(value, segment, child.value, allowAppend)
  }

  function ChildOrNew(value: Unknown, segment: Segment, next: Segment): Unknown {
    match Child(value, segment)
    case Ok(child) => child
    case Err => DefaultContainer(next)
  }

  // ------------------------------------------------------------------
  // One level
  // ------------------------------------------------------------------

  /** Writing a level makes the value readable there, unless it was appended. */
  lemma AssignThenChild(parent: Unknown, segment: Segment, value: Unknown, allowAppend: bool)
    requires Assign(parent, segment, value, allowAppend).Ok? && segment != Append
    ensures Child(Assign(parent, segment, value, allowAppend).value, segment) == Ok(value)
  {
  }

  /** Whether a write succeeds does not depend on the value written. */
  lemma AssignSucceedsForAll(parent: Unknown, segment: Segment, a: Unknown, b: Unknown, allowAppend: bool)
    ensures Assign(parent, segment, a, allowAppend).Ok? == Assign(parent, segment, b, allowAppend).Ok?
  {
  }

  /** Another segment of the same level still reads the same, unless a readable-by-index slot was appended. */
  lemma AssignLeavesOthers(parent: Unknown, segment: Segment, value: Unknown, allowAppend: bool, other: Segment)
    requires Assign(parent, segment, value, allowAppend).Ok? && other != segment
    ensures segment != Append || Child(parent, other).Ok? ==>
      Child(Assign(parent, segment, value, allowAppend).value, other) == Child(parent, other)
  {
  }

  lemma AssignTwice(parent: Unknown, segment: Segment, a: Unknown, b: Unknown, allowAppend: bool)
    requires Assign(parent, segment, a, allowAppend).Ok? && segment != Append
    ensures Assign(Assign(parent, segment, a, allowAppend).value, segment, b, allowAppend)
         == Assign(parent, segment, b, allowAppend)
  {
    match (parent, segment)
    case (Object(fields), Field(name)) =>
      assert fields[name := a][name := b] == fields[name := b];
    case (Array(items), Index(i)) =>
      if i == |items| {
        assert (items + [a])[i := b] == items + [b];
      } else {
        assert items[i := a][i := b] == items[i := b];
      }
    case _ =>
  }

  lemma AssignSame(parent: Unknown, segment: Segment, allowAppend: bool)
    requires Child(parent, segment).Ok?
    ensures Assign(parent, segment, Child(parent, segment).value, allowAppend) == Ok(parent)
  {
    match (parent, segment)
    case (Object(fields), Field(name)) =>
      assert fields[name := fields[name]] == fields;
    case (Array(items), Index(i)) =>
      assert items[i := items[i]] == items;
    case _ =>
  }

  lemma EmptyHasNoChildren(segment: Segment, path: Path)
    requires path != []
    ensures GetAt(DefaultContainer(segment), path) == Err
  {
  }

  // ------------------------------------------------------------------
  // Bottom-up equals top-down
  // ------------------------------------------------------------------

  /** What the bottom-up set does with the last segment. */
  function SetLast(value: Unknown, init: Path, last: Segment, newValue: Unknown): Result<Unknown> {
    var parent := GetAt(value, init);
    if parent.Err? then Err
    else
      var updated := Assign(parent.value, last, newValue, false);
      if updated.Err? then Err else SetTop(value, init, updated.value)
  }

  lemma {:induction false} SetTopPeelsLast(value: Unknown, init: Path, last: Segment, newValue: Unknown)
    requires init != []
    ensures SetTop(value, init + [last], newValue) == SetLast(value, init, last, newValue)
  {
    var path := init + [last];
    assert path[1..] == init[1..] + [last];
    if Child(value, init[0]).Ok? {
      var child := Child(value, init[0]).value;
      if |init| == 1 {
        assert path[1..] == [last] && init[1..] == [];
        assert SetTop(child, [last], newValue) == Assign(child, last, newValue, false);
        assert GetAt(child, []) == Ok(child);
      } else {
        SetTopPeelsLast(child, init[1..], last, newValue);
      }
    }
  }

  /** Main theorem: the bottom-up set succeeds exactly when the top-down one does, with the same document. */
  lemma {:induction false} SetIsTopDown(value: Unknown, path: Path, newValue: Unknown)
    ensures SetAt(value, path, newValue) == SetTop(value, path, newValue)
    decreases |path|
  {
    if |path| > 1 {
      assert path == Init(path) + [Last(path)];
      SetTopPeelsLast(value, Init(path), Last(path), newValue);
      var parent := GetAt(value, Init(path));
      if parent.Ok? {
        var updated := Assign(parent.value, Last(path), newValue, false);
        if updated.Ok? {
          SetIsTopDown(value, Init(path), updated.value);
        }
      }
    }
  }

  /** What the bottom-up create does with the last segment. */
  function CreateLast(value: Unknown, init: Path, last: Segment, newValue: Unknown): Result<Unknown> {
    var parent := CreateParent(value, init, last);
    if parent.Err? then Err
    else
      var updated := Assign(parent.value, last, newValue, true);
      if updated.Err? then Err else CreateTop(value, init, updated.value)
  }

  function CreateParent(value: Unknown, init: Path, last: Segment): Result<Unknown> {
    if GetAt(value, init).Ok? then GetAt(value, init)
    else
      var ensured := CreateTop(value, init, DefaultContainer(last));
      if ensured.Err? then Err else GetAt(ensured.value, init)
  }

  lemma CreateTopPeelsOnly(value: Unknown, first: Segment, last: Segment, newValue: Unknown)
    ensures CreateTop(value, [first, last], newValue) == CreateLast(value, [first], last, newValue)
  {
    assert [first, last][1..] == [last] && [first][1..] == [];
    var child := ChildOrNew(value, first, last);
    var below := Assign(child, last, newValue, true);
    assert CreateTop(child, [last], newValue) == below;
    assert GetAt(child, []) == Ok(child);
    if first != Append && Child(value, first).Err? {
      var ensured := Assign(value, first, child, true);
      assert CreateTop(value, [first], child) == ensured;
      if ensured.Ok? {
        AssignThenChild(value, first, child, true);
      } else if below.Ok? {
        AssignSucceedsForAll(value, first, child, below.value, true);
      }
    }
  }

  lemma {:induction false} CreateTopPeelsLast(value: Unknown, init: Path, last: Segment, newValue: Unknown)
    requires init != []
    ensures CreateTop(value, init + [last], newValue) == CreateLast(value, init, last, newValue)
    decreases |init|
  {
    var path := init + [last];
    assert path[1..] == init[1..] + [last];
    if |init| == 1 {
      assert path == [init[0], last] && init == [init[0]];
      CreateTopPeelsOnly(value, init[0], last, newValue);
    } else if init[0] != Append {
      var child := ChildOrNew(value, init[0], init[1]);
      CreateTopPeelsLast(child, init[1..], last, newValue);
      CreateParentDescends(value, init, last);
      CreateLastDescends(value, init, last, newValue);
    }
  }

  /** The parent found through the first level is the one found below it. */
  lemma CreateParentDescends(value: Unknown, init: Path, last: Segment)
    requires |init| > 1 && init[0] != Append
    ensures var child := ChildOrNew(value, init[0], init[1]);
            var below := CreateParent(child, init[1..], last);
            CreateParent(value, init, last) ==
              if below.Ok? && Assign(value, init[0], Null, true).Ok? then below else Err
  {
    var child := ChildOrNew(value, init[0], init[1]);
    if Child(value, init[0]).Ok? {
      AssignSame(value, init[0], true);
      AssignSucceedsForAll(value, init[0], child, Null, true);
    } else {
      EmptyHasNoChildren(init[1], init[1..]);
    }
    var inner := CreateTop(child, init[1..], DefaultContainer(last));
    if inner.Ok? {
      AssignSucceedsForAll(value, init[0], inner.value, Null, true);
      if Assign(value, init[0], inner.value, true).Ok? {
        AssignThenChild(value, init[0], inner.value, true);
      }
    }
  }

  lemma CreateLastDescends(value: Unknown, init: Path, last: Segment, newValue: Unknown)
    requires |init| > 1 && init[0] != Append
    requires var below := CreateParent(ChildOrNew(value, init[0], init[1]), init[1..], last);
             CreateParent(value, init, last) ==
               if below.Ok? && Assign(value, init[0], Null, true).Ok? then below else Err
    ensures CreateLast(value, init, last, newValue) ==
            Rewrap(value, init[0], CreateLast(ChildOrNew(value, init[0], init[1]), init[1..], last, newValue), true)
  {
    var below := CreateLast(ChildOrNew(value, init[0], init[1]), init[1..], last, newValue);
    if below.Ok? {
      AssignSucceedsForAll(value, init[0], below.value, Null, true);
    }
  }

  /**
    Main theorem: the bottom-up create, with its two recursive calls, equals the
    top-down create for every path; both fail when an append segment is not last.
   */
  lemma {:induction false} CreateIsTopDown(value: Unknown, path: Path, newValue: Unknown)
    ensures CreateAt(value, path, newValue) == CreateTop(value, path, newValue)
    decreases |path|
  {
    if |path| > 1 {
      var init, last := Init(path), Last(path);
      assert path == init + [last];
      CreateTopPeelsLast(value, init, last, newValue);
      CreateIsTopDown(value, init, DefaultContainer(last));
      var parent := CreateParent(value, init, last);
      if parent.Ok? {
        var updated := Assign(parent.value, last, newValue, true);
        if updated.Ok? {
          CreateIsTopDown(value, init, updated.value);
        }
      }
    }
  }

  // ------------------------------------------------------------------
  // Lens laws
  // ------------------------------------------------------------------

  ghost predicate AppendFree(path: Path) {
    forall k :: 0 <= k < |path| ==> path[k] != Append
  }

  lemma {:induction false} SetTopThenGet(value: Unknown, path: Path, newValue: Unknown)
    requires SetTop(value, path, newValue).Ok?
    ensures GetAt(SetTop(value, path, newValue).value, path) == Ok(newValue)
  {
    if |path| == 1 {
      AssignThenChild(value, path[0], newValue, false);
    } else if |path| > 1 {
      var child := Child(value, path[0]).value;
      SetTopThenGet(child, path[1..], newValue);
      AssignThenChild(value, path[0], SetTop(child, path[1..], newValue).value, false);
    }
  }

  lemma {:induction false} SetTopSame(value: Unknown, path: Path)
    requires GetAt(value, path).Ok?
    ensures SetTop(value, path, GetAt(value, path).value) == Ok(value)
  {
    if path != [] {
      AssignSame(value, path[0], false);
      if |path| > 1 {
        SetTopSame(Child(value, path[0]).value, path[1..]);
      } else {
        assert path[1..] == [];
      }
    }
  }

  lemma {:induction false} SetTopTwice(value: Unknown, path: Path, a: Unknown, b: Unknown)
    requires SetTop(value, path, a).Ok?
    ensures SetTop(SetTop(value, path, a).value, path, b) == SetTop(value, path, b)
  {
    if |path| == 1 {
      AssignTwice(value, path[0], a, b, false);
    } else if |path| > 1 {
      var child := Child(value, path[0]).value;
      var inner := SetTop(child, path[1..], a).value;
      SetTopTwice(child, path[1..], a, b);
      AssignThenChild(value, path[0], inner, false);
      var again := SetTop(child, path[1..], b);
      if again.Ok? {
        AssignTwice(value, path[0], inner, again.value, false);
      }
    }
  }

  lemma {:induction false} CreateTopThenGet(value: Unknown, path: Path, newValue: Unknown)
    requires CreateTop(value, path, newValue).Ok? && AppendFree(path)
    ensures GetAt(CreateTop(value, path, newValue).value, path) == Ok(newValue)
    decreases |path|
  {
    if |path| == 1 {
      AssignThenChild(value, path[0], newValue, true);
    } else if |path| > 1 {
      var child := ChildOrNew(value, path[0], path[1]);
      CreateTopThenGet(child, path[1..], newValue);
      AssignThenChild(value, path[0], CreateTop(child, path[1..], newValue).value, true);
    }
  }

  /** On a readable path creating is setting. */
  lemma {:induction false} CreateTopOnReadable(value: Unknown, path: Path, newValue: Unknown)
    requires GetAt(value, path).Ok?
    ensures CreateTop(value, path, newValue) == SetTop(value, path, newValue)
  {
    if |path| > 1 {
      var child := Child(value, path[0]).value;
      CreateTopOnReadable(child, path[1..], newValue);
    }
  }

  /** Neither path is a prefix of the other. */
  ghost predicate Incomparable(p: Path, q: Path) {
    !(p <= q) && !(q <= p)
  }

  lemma IncomparableTails(p: Path, q: Path)
    requires Incomparable(p, q) && p[0] == q[0]
    ensures Incomparable(p[1..], q[1..]) && |p| > 1 && |q| > 1
  {
    assert p == [p[0]] + p[1..] && q == [q[0]] + q[1..];
  }

  lemma {:induction false} SetTopFrame(value: Unknown, path: Path, newValue: Unknown, other: Path)
    requires SetTop(value, path, newValue).Ok? && Incomparable(path, other)
    ensures GetAt(SetTop(value, path, newValue).value, other) == GetAt(value, other)
  {
    if path[0] == other[0] {
      IncomparableTails(path, other);
      var child := Child(value, path[0]).value;
      SetTopFrame(child, path[1..], newValue, other[1..]);
      AssignThenChild(value, path[0], SetTop(child, path[1..], newValue).value, false);
    } else if |path| == 1 {
      AssignLeavesOthers(value, path[0], newValue, false, other[0]);
    } else {
      var child := Child(value, path[0]).value;
      AssignLeavesOthers(value, path[0], SetTop(child, path[1..], newValue).value, false, other[0]);
    }
  }

  lemma {:induction false} CreateTopFrame(value: Unknown, path: Path, newValue: Unknown, other: Path)
    requires CreateTop(value, path, newValue).Ok? && Incomparable(path, other)
    ensures AppendFree(path) || GetAt(value, other).Ok? ==>
      GetAt(CreateTop(value, path, newValue).value, other) == GetAt(value, other)
    decreases |path|
  {
    if |path| == 1 {
      if path[0] == other[0] {
        IncomparableTails(path, other);
      } else {
        AssignLeavesOthers(value, path[0], newValue, true, other[0]);
      }
    } else {
      var child := ChildOrNew(value, path[0], path[1]);
      var inner := CreateTop(child, path[1..], newValue);
      if path[0] == other[0] {
        IncomparableTails(path, other);
        CreateTopFrame(child, path[1..], newValue, other[1..]);
        AssignThenChild(value, path[0], inner.value, true);
        if Child(value, path[0]).Err? {
          EmptyHasNoChildren(path[1], other[1..]);
        }
      } else {
        AssignLeavesOthers(value, path[0], inner.value, true, other[0]);
      }
    }
  }

  /** The lens laws of `set`, as the source computes it. */
  lemma SetLaws(value: Unknown, path: Path, a: Unknown, b: Unknown, other: Path)
    ensures SetAt(value, path, a).Ok? ==> GetAt(SetAt(value, path, a).value, path) == Ok(a)
    ensures GetAt(value, path).Ok? ==> SetAt(value, path, GetAt(value, path).value) == Ok(value)
    ensures SetAt(value, path, a).Ok? ==> SetAt(SetAt(value, path, a).value, path, b) == SetAt(value, path, b)
    ensures SetAt(value, path, a).Ok? && Incomparable(path, other) ==>
      GetAt(SetAt(value, path, a).value, other) == GetAt(value, other)
  {
    SetIsTopDown(value, path, a);
    SetIsTopDown(value, path, b);
    if GetAt(value, path).Ok? {
      SetIsTopDown(value, path, GetAt(value, path).value);
      SetTopSame(value, path);
    }
    if SetAt(value, path, a).Ok? {
      SetIsTopDown(SetAt(value, path, a).value, path, b);
      SetTopThenGet(value, path, a);
      SetTopTwice(value, path, a, b);
      if Incomparable(path, other) {
        SetTopFrame(value, path, a, other);
      }
    }
  }

  /** The laws of `create`, as the source computes it. */
  lemma CreateLaws(value: Unknown, path: Path, a: Unknown, other: Path)
    ensures CreateAt(value, path, a).Ok? && AppendFree(path) ==>
      GetAt(CreateAt(value, path, a).value, path) == Ok(a)
    ensures GetAt(value, path).Ok? ==> CreateAt(value, path, a) == SetAt(value, path, a)
    ensures CreateAt(value, path, a).Ok? && Incomparable(path, other) ==>
      AppendFree(path) || GetAt(value, other).Ok? ==>
      GetAt(CreateAt(value, path, a).value, other) == GetAt(value, other)
  {
    CreateIsTopDown(value, path, a);
    if GetAt(value, path).Ok? {
      SetIsTopDown(value, path, a);
      CreateTopOnReadable(value, path, a);
    }
    if CreateAt(value, path, a).Ok? {
      if AppendFree(path) {
        CreateTopThenGet(value, path, a);
      }
      if Incomparable(path, other) {
        CreateTopFrame(value, path, a, other);
      }
    }
  }

  /** The documentation asks that the whole target path exist; the code still inserts a missing last field. */
  lemma SetInsertsMissingField(fields: map<string, Unknown>, name: string, value: Unknown)
    requires name !in fields
    ensures GetAt(Object(fields), [Field(name)]) == Err
    ensures SetAt(Object(fields), [Field(name)], value) == Ok(Object(fields[name := value]))
  {
  }

  /** `set` succeeds exactly when the parent is readable and is an object for a field, or an array holding the index. */
  lemma SetSucceedsIff(value: Unknown, path: Path, newValue: Unknown)
    requires path != []
    ensures SetAt(value, path, newValue).Ok? <==>
      var parent := GetAt(value, Init(path));
      parent.Ok? && match Last(path)
                    case Field(_) => parent.value.Object?
                    case Index(i) => parent.value.Array? && i < |parent.value.items|
                    case Append => false
  {
    var parent := GetAt(value, Init(path));
    if |path| > 1 && parent.Ok? {
      var updated := Assign(parent.value, Last(path), newValue, false);
      if updated.Ok? {
        SetIsTopDown(value, Init(path), updated.value);
        SetOnReadable(value, Init(path), updated.value);
      }
    }
  }

  lemma {:induction false} SetOnReadable(value: Unknown, path: Path, newValue: Unknown)
    requires GetAt(value, path).Ok?
    ensures SetTop(value, path, newValue).Ok?
  {
    if |path| > 1 {
      var child := Child(value, path[0]).value;
      SetOnReadable(child, path[1..], newValue);
      AssignSame(value, path[0], false);
      AssignSucceedsForAll(value, path[0], child, SetTop(child, path[1..], newValue).value, false);
    } else if |path| == 1 {
      AssignSame(value, path[0], false);
      AssignSucceedsForAll(value, path[0], Child(value, path[0]).value, newValue, false);
    }
  }

  // ------------------------------------------------------------------
  // When `create` succeeds, and what it builds
  // ------------------------------------------------------------------

  /** The value has a place for the segment: an object for a field, an array long enough for anything else. */
  predicate Accepts(value: Unknown, segment: Segment) {
    match segment
    case Field(_) => value.Object?
    case Index(i) => value.Array? && i <= |value.items|
    case Append => value.Array?
  }

  /** How many levels of the path can be read. */
  function ReadableDepth(value: Unknown, path: Path): (n: nat)
    ensures n <= |path|
  {
    if path == [] || Child(value, path[0]).Err? then 0 else 1 + ReadableDepth(Child(value, path[0]).value, path[1..])
  }

  lemma {:induction false} DepthIsReadable(value: Unknown, path: Path)
    ensures GetAt(value, path[..ReadableDepth(value, path)]).Ok?
  {
    if path != [] && Child(value, path[0]).Ok? {
      var n := ReadableDepth(value, path);
      assert path[..n][1..] == path[1..][..n - 1];
      DepthIsReadable(Child(value, path[0]).value, path[1..]);
    }
  }

  /** New levels can be made for the segments after `n`: appends come last, and a new array starts at index 0. */
  predicate Buildable(path: Path, n: nat) {
    && (forall k :: n <= k < |path| - 1 ==> path[k] != Append)
    && (forall k :: n < k < |path| && path[k].Index? ==> path[k].index == 0)
  }

  /** The first missing level fits into the last readable one, and the levels below it can be made. */
  predicate CanCreate(value: Unknown, path: Path) {
    var n := ReadableDepth(value, path);
    n == |path| ||
    (var last := GetAt(value, path[..n]); last.Ok? && Accepts(last.value, path[n]) && Buildable(path, n))
  }

  lemma AssignAccepts(value: Unknown, segment: Segment, x: Unknown)
    ensures Assign(value, segment, x, true).Ok? <==> Accepts(value, segment)
    ensures Child(value, segment).Ok? ==> Accepts(value, segment)
  {
  }

  lemma BuildableBelow(path: Path)
    requires |path| > 1 && path[0] != Append
    ensures Buildable(path, 0) <==> Buildable(path[1..], 0) && (path[1].Index? ==> path[1].index == 0)
  {
    var rest := path[1..];
    assert forall k :: 0 < k < |path| ==> path[k] == rest[k - 1];
    assert forall k :: 0 <= k < |rest| ==> rest[k] == path[k + 1];
  }

  /** In a new container everything below can be made if its segments are all right. */
  lemma {:induction false} EmptyBuilds(path: Path, newValue: Unknown)
    requires path != []
    ensures CreateTop(DefaultContainer(path[0]), path, newValue).Ok? <==>
            Buildable(path, 0) && (path[0].Index? ==> path[0].index == 0)
    decreases |path|
  {
    var start := DefaultContainer(path[0]);
    if |path| > 1 && path[0] != Append {
      EmptyBuilds(path[1..], newValue);
      BuildableBelow(path);
      var inner := CreateTop(DefaultContainer(path[1]), path[1..], newValue);
      if inner.Ok? {
        AssignAccepts(start, path[0], inner.value);
      }
    }
  }

  lemma {:induction false} CreateTopSucceedsIff(value: Unknown, path: Path, newValue: Unknown)
    ensures CreateTop(value, path, newValue).Ok? <==> CanCreate(value, path)
    decreases |path|
  {
    DepthIsReadable(value, path);
    if |path| == 1 {
      AssignAccepts(value, path[0], newValue);
    } else if |path| > 1 && path[0] != Append {
      var child := ChildOrNew(value, path[0], path[1]);
      var inner := CreateTop(child, path[1..], newValue);
      if Child(value, path[0]).Ok? {
        CreateTopSucceedsIff(child, path[1..], newValue);
        CanCreateBelow(value, path);
      } else {
        EmptyBuilds(path[1..], newValue);
        BuildableBelow(path);
      }
      if inner.Ok? {
        AssignAccepts(value, path[0], inner.value);
      }
    }
  }

  lemma CanCreateBelow(value: Unknown, path: Path)
    requires path != [] && Child(value, path[0]).Ok?
    ensures CanCreate(value, path) <==> CanCreate(Child(value, path[0]).value, path[1..])
  {
    var rest, n := path[1..], ReadableDepth(value, path);
    assert path[..n][1..] == rest[..n - 1];
    assert Buildable(path, n) <==> Buildable(rest, n - 1) by {
      assert forall k :: n <= k < |path| ==> path[k] == rest[k - 1];
      assert forall k :: n - 1 <= k < |rest| ==> rest[k] == path[k + 1];
    }
  }

  /**
    Main theorem: `create` succeeds exactly when the first missing level fits where
    the readable ones end and, from there on, only the last segment appends and every
    index is 0.
   */
  lemma CreateSucceedsIff(value: Unknown, path: Path, newValue: Unknown)
    ensures CreateAt(value, path, newValue).Ok? <==> CanCreate(value, path)
  {
    CreateIsTopDown(value, path, newValue);
    CreateTopSucceedsIff(value, path, newValue);
  }

  lemma {:induction false} TopLevels(value: Unknown, path: Path, newValue: Unknown, k: nat)
    requires CreateTop(value, path, newValue).Ok? && k < |path|
    ensures GetAt(CreateTop(value, path, newValue).value, path[..k]).Ok?
    ensures var level := GetAt(CreateTop(value, path, newValue).value, path[..k]).value;
            if path[k].Field? then level.Object? else level.Array?
    decreases k
  {
    if k > 0 {
      var child := ChildOrNew(value, path[0], path[1]);
      TopLevels(child, path[1..], newValue, k - 1);
      AssignThenChild(value, path[0], CreateTop(child, path[1..], newValue).value, true);
      assert path[..k][1..] == path[1..][..k - 1];
    }
  }

  /** After `create` every level on the way is an object exactly where the path goes on with a field. */
  lemma CreatedLevels(value: Unknown, path: Path, newValue: Unknown, k: nat)
    requires CreateAt(value, path, newValue).Ok? && k < |path|
    ensures GetAt(CreateAt(value, path, newValue).value, path[..k]).Ok?
    ensures var level := GetAt(CreateAt(value, path, newValue).value, path[..k]).value;
            if path[k].Field? then level.Object? else level.Array?
  {
    CreateIsTopDown(value, path, newValue);
    TopLevels(value, path, newValue, k);
  }

  lemma {:induction false} AppendsAreLast(value: Unknown, path: Path, newValue: Unknown)
    requires CreateTop(value, path, newValue).Ok?
    ensures forall k :: 0 <= k < |path| - 1 ==> path[k] != Append
    decreases |path|
  {
    if |path| > 1 {
      AppendsAreLast(ChildOrNew(value, path[0], path[1]), path[1..], newValue);
      assert forall k :: 0 < k < |path| ==> path[k] == path[1..][k - 1];
    }
  }

  /** The array that an append extends: the one at `init`, or a new one. */
  function ItemsAt(value: Unknown, init: Path): seq<Unknown> {
    var parent := GetAt(value, init);
    if parent.Ok? && parent.value.Array? then parent.value.items else []
  }

  /** Appending at a path creates, at its parent, the old array with the value at its end. */
  lemma CreateAppends(value: Unknown, init: Path, x: Unknown)
    requires CreateAt(value, init + [Append], x).Ok?
    ensures AppendFree(init)
    ensures CreateAt(value, init + [Append], x) == CreateAt(value, init, Array(ItemsAt(value, init) + [x]))
    ensures GetAt(CreateAt(value, init + [Append], x).value, init) == Ok(Array(ItemsAt(value, init) + [x]))
  {
    var path, whole := init + [Append], Array(ItemsAt(value, init) + [x]);
    CreateIsTopDown(value, path, x);
    CreateIsTopDown(value, init, whole);
    AppendsAreLast(value, path, x);
    assert forall k :: 0 <= k < |init| ==> path[k] == init[k];
    if init == [] {
      assert path == [Append];
    } else {
      CreateTopPeelsLast(value, init, Append, x);
      if GetAt(value, init).Err? && CreateTop(value, init, DefaultContainer(Append)).Ok? {
        CreateTopThenGet(value, init, DefaultContainer(Append));
      }
      CreateTopThenGet(value, init, whole);
    }
  }

  // ------------------------------------------------------------------
  // Updates of different places commute
  // ------------------------------------------------------------------

  function SetTwice(value: Unknown, p: Path, a: Unknown, q: Path, b: Unknown): Result<Unknown> {
    var first := SetTop(value, p, a);
    if first.Err? then Err else SetTop(first.value, q, b)
  }

  lemma AssignsCommute(parent: Unknown, s: Segment, a: Unknown, t: Segment, b: Unknown)
    requires s != t
    ensures Rewrap2(parent, s, Ok(a), t, Ok(b)) == Rewrap2(parent, t, Ok(b), s, Ok(a))
  {
    match parent {
      case Object(fields) =>
        if s.Field? && t.Field? {
          assert fields[s.name := a][t.name := b] == fields[t.name := b][s.name := a];
        }
      case Array(items) =>
        if s.Index? && t.Index? && s.index < |items| && t.index < |items| {
          assert items[s.index := a][t.index := b] == items[t.index := b][s.index := a];
        }
      case _ =>
    }
  }

  function Rewrap2(parent: Unknown, s: Segment, a: Result<Unknown>, t: Segment, b: Result<Unknown>): Result<Unknown> {
    var first := Rewrap(parent, s, a, false);
    if first.Err? then Err else Rewrap(first.value, t, b, false)
  }

  /** What an update writes into the first level of its path. */
  function Below(value: Unknown, path: Path, newValue: Unknown): Result<Unknown>
    requires path != []
  {
    if |path| == 1 then Ok(newValue)
    else if Child(value, path[0]).Err? then Err
    else SetTop(Child(value, path[0]).value, path[1..], newValue)
  }

  lemma SetIsBelow(value: Unknown, path: Path, newValue: Unknown)
    requires path != []
    ensures SetTop(value, path, newValue) == Rewrap(value, path[0], Below(value, path, newValue), false)
  {
  }

  /** Updates that part at their first level are two writes of that level. */
  lemma SetTwiceApart(value: Unknown, p: Path, a: Unknown, q: Path, b: Unknown)
    requires p != [] && q != [] && p[0] != q[0]
    ensures SetTwice(value, p, a, q, b) == Rewrap2(value, p[0], Below(value, p, a), q[0], Below(value, q, b))
  {
    var first := SetTop(value, p, a);
    SetIsBelow(value, p, a);
    if first.Ok? {
      SetIsBelow(first.value, q, b);
      BelowStays(value, p[0], Below(value, p, a).value, q, b);
    }
  }

  lemma BelowStays(value: Unknown, segment: Segment, x: Unknown, q: Path, b: Unknown)
    requires q != [] && q[0] != segment && Assign(value, segment, x, false).Ok?
    ensures Below(Assign(value, segment, x, false).value, q, b) == Below(value, q, b)
  {
    AssignLeavesOthers(value, segment, x, false, q[0]);
  }

  /** Updates that share their first level are two updates of the child there. */
  lemma SetTwiceTogether(value: Unknown, p: Path, a: Unknown, q: Path, b: Unknown)
    requires |p| > 1 && |q| > 1 && p[0] == q[0] && Child(value, p[0]).Ok?
    ensures SetTwice(value, p, a, q, b) ==
      Rewrap(value, p[0], SetTwice(Child(value, p[0]).value, p[1..], a, q[1..], b), false)
  {
    var child := Child(value, p[0]).value;
    var inner := SetTop(child, p[1..], a);
    AssignSame(value, p[0], false);
    if inner.Ok? {
      AssignSucceedsForAll(value, p[0], child, inner.value, false);
      AssignThenChild(value, p[0], inner.value, false);
      var both := SetTop(inner.value, q[1..], b);
      if both.Ok? {
        AssignTwice(value, p[0], inner.value, both.value, false);
      }
    }
  }

  lemma RewrapsCommute(value: Unknown, s: Segment, a: Result<Unknown>, t: Segment, b: Result<Unknown>)
    requires s != t
    ensures Rewrap2(value, s, a, t, b) == Rewrap2(value, t, b, s, a)
  {
    if a.Ok? && b.Ok? {
      AssignsCommute(value, s, a.value, t, b.value);
    }
  }

  lemma SetsApartCommute(value: Unknown, p: Path, a: Unknown, q: Path, b: Unknown)
    requires p != [] && q != [] && p[0] != q[0]
    ensures SetTwice(value, p, a, q, b) == SetTwice(value, q, b, p, a)
  {
    var x, y := Below(value, p, a), Below(value, q, b);
    SetTwiceApart(value, p, a, q, b);
    SetTwiceApart(value, q, b, p, a);
    RewrapsCommute(value, p[0], x, q[0], y);
  }

  /** Updates at places neither of which contains the other commute, failures included. */
  lemma {:induction false} SetsCommute(value: Unknown, p: Path, a: Unknown, q: Path, b: Unknown)
    requires Incomparable(p, q)
    ensures SetTwice(value, p, a, q, b) == SetTwice(value, q, b, p, a)
  {
    if p[0] != q[0] {
      SetsApartCommute(value, p, a, q, b);
    } else {
      IncomparableTails(p, q);
      if Child(value, p[0]).Ok? {
        SetsCommute(Child(value, p[0]).value, p[1..], a, q[1..], b);
        SetTwiceTogether(value, p, a, q, b);
        SetTwiceTogether(value, q, b, p, a);
      }
    }
  }
}
