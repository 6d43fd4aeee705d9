/**
  The language of the JSON parser. Main theorems: every tree's text parses to
  what the tree denotes, and every accepted text is the text of some tree.
 */
module JsonGrammar {
  import opened Text
  import opened Values
  import opened Json
  import opened JsonSyntax

  // ------------------------------------------------------------------
  // Completeness
  // ------------------------------------------------------------------

  /** Main theorem: the text of an allowed tree parses to what the tree denotes, and nothing after it is touched. */
  lemma {:induction false} ValueComplete(c: Cst, k: string)
    requires Good(c) && MayFollow(c, k)
    ensures Value(TextThen(c, k)) == Ok(Parsed(Denote(c), k))
    decreases c, 0
  {
    var s := TextThen(c, k);
    TextStart(c, k);
    TrimSolid(s);
    match c
    case CNull => WordComplete("null", k, Null);
    case CBool(flag) =>
      WordComplete("true", k, Bool(true));
      WordComplete("false", k, Bool(false));
    case CInt(negative, digits) => IntComplete(negative, digits, k);
    case CFloat(negative, digits, fraction) => FloatComplete(negative, digits, fraction, k);
    case CString(chars) => StringComplete(chars, k);
    case CEmptyArray(space) => EmptyComplete("[", space, "]", k);
    case CEmptyObject(space) => EmptyComplete("{", space, "}", k);
    case CArray(items) =>
      assert s[1..] == ItemsThen(items, k);
      ItemsComplete(items, k, []);
      assert [] + DenoteItems(items) == DenoteItems(items);
    case CObject(members) =>
      assert s[1..] == MembersThen(members, k);
      MembersComplete(members, k, map[]);
  }

  lemma WordComplete(word: string, k: string, value: Unknown)
    ensures Literal(word + k, word, value) == Ok(Parsed(value, k))
  {
    assert (word + k)[|word|..] == k && word <= word + k;
  }

  lemma EmptyComplete(open: string, space: string, close: string, k: string)
    requires |open| == |close| == 1 && AllSpace(space) && !IsSpace(close[0])
    ensures TrimStart((open + space + close + k)[1..]) == close + k
    ensures (close + k)[1..] == k
  {
    assert (open + space + close + k)[1..] == space + (close + k);
    TrimSpace(space, close + k);
  }

  lemma {:induction false} ItemsComplete(items: CItems, k: string, acc: seq<Unknown>)
    requires GoodItems(items)
    ensures var current := TrimStart(ItemsThen(items, k));
            current != "" && current[0] != ']' && Items(current, acc) == Ok(Parsed(Array(acc + DenoteItems(items)), k))
    decreases items, 1
  {
    var tail := if items.LastItem? then "]" + k else "," + ItemsThen(items.rest, k);
    AfterValue(items.value, items.after, tail);
    ValueComplete(items.value, items.after + tail);
    ItemIsRead(items.before, items.value, items.after, tail, acc);
    if items.LastItem? {
      assert tail[1..] == k;
    } else {
      assert tail[1..] == ItemsThen(items.rest, k);
      ItemsComplete(items.rest, k, acc + [Denote(items.value)]);
      Associates(acc, Denote(items.value), DenoteItems(items.rest));
    }
  }

  /** An item whose value is read is added, and the loop ends or goes on after it. */
  lemma ItemIsRead(before: string, value: Cst, after: string, tail: string, acc: seq<Unknown>)
    requires AllSpace(before) && Good(value) && AllSpace(after) && tail != "" && tail[0] in {']', ','}
    requires Value(TextThen(value, after + tail)) == Ok(Parsed(Denote(value), after + tail))
    ensures var current := TrimStart(before + TextThen(value, after + tail));
            && current != "" && current[0] != ']'
            && Items(current, acc) ==
                 if tail[0] == ']' then Ok(Parsed(Array(acc + [Denote(value)]), tail[1..]))
                 else Items(TrimStart(tail[1..]), acc + [Denote(value)])
  {
    var current := TextThen(value, after + tail);
    TextStart(value, after + tail);
    TrimSpace(before, current);
    TrimSolid(current);
    AfterValue(value, after, tail);
  }

  lemma {:induction false} MembersComplete(ms: CMembers, k: string, acc: map<string, Unknown>)
    requires GoodMembers(ms)
    ensures var current := TrimStart(MembersThen(ms, k));
            current != "" && current[0] != '}' && Members(current, acc) == Ok(Parsed(Object(DenoteMembers(ms, acc)), k))
    decreases ms, 1
  {
    var tail := if ms.LastMember? then "}" + k else "," + MembersThen(ms.rest, k);
    var follow := ms.after + tail;
    var text := TextThen(ms.value, follow);
    var colon := ":" + (ms.lead + text);
    var current := StringThen(ms.key, ms.gap + colon);
    TrimSpace(ms.before, current);
    TrimSolid(current);
    StringComplete(ms.key, ms.gap + colon);
    TrimSpace(ms.gap, colon);
    TrimSolid(colon);
    assert colon[1..] == ms.lead + text;
    TrimSpace(ms.lead, text);
    TextStart(ms.value, follow);
    TrimSolid(text);
    AfterValue(ms.value, ms.after, tail);
    ValueComplete(ms.value, follow);
    var more := acc[Meaning(ms.key) := Denote(ms.value)];
    if ms.LastMember? {
      assert tail[1..] == k;
    } else {
      assert tail[1..] == MembersThen(ms.rest, k);
      MembersComplete(ms.rest, k, more);
    }
  }

  // ------------------------------------------------------------------
  // Soundness
  // ------------------------------------------------------------------

  /** Main theorem: every accepted text is white space and the text of a tree that denotes the result. */
  lemma {:induction false} ValueSound(s: string) returns (space: string, c: Cst)
    requires Value(s).Ok?
    ensures AllSpace(space) && Good(c) && MayFollow(c, Value(s).value.rest)
    ensures s == space + TextThen(c, Value(s).value.rest)
    ensures Value(s).value.value == Denote(c)
    decreases |s|, 2
  {
    space := TrimSplits(s);
    var t := TrimStart(s);
    if t[0] == '"' {
      var chars := StringSound(t);
      c := CString(chars);
    } else if t[0] == '{' {
      c := ObjectSound(t);
    } else if t[0] == '[' {
      c := ArraySound(t);
    } else if t[0] == 't' || t[0] == 'f' {
      c := CBool(StartsWith(t, "true"));
      LiteralSound(t, if c.flag then "true" else "false", Bool(c.flag));
    } else if t[0] == 'n' {
      c := CNull;
      LiteralSound(t, "null", Null);
    } else {
      c := NumberSound(t);
    }
  }

  lemma {:induction false} ArraySound(t: string) returns (c: Cst)
    requires t != "" && t[0] == '[' && ArrayLiteral(t).Ok?
    ensures Good(c) && (c.CArray? || c.CEmptyArray?)
    ensures t == TextThen(c, ArrayLiteral(t).value.rest) && ArrayLiteral(t).value.value == Denote(c)
    decreases |t|, 1
  {
    var space := TrimSplits(t[1..]);
    var current := TrimStart(t[1..]);
    assert t == "[" + t[1..];
    if current != "" && current[0] == ']' {
      c := CEmptyArray(space);
      assert current == "]" + current[1..];
      assert t == "[" + space + "]" + current[1..];
    } else {
      var items := ItemsSound(current, []);
      c := CArray(ItemsBefore(space, items));
      OpenItems(space, items, current, ArrayLiteral(t).value.rest);
      assert [] + DenoteItems(items) == DenoteItems(items);
    }
  }

  lemma {:induction false} ItemsSound(current: string, acc: seq<Unknown>) returns (items: CItems)
    requires Items(current, acc).Ok?
    ensures GoodItems(items)
    ensures current == ItemsThen(items, Items(current, acc).value.rest)
    ensures Items(current, acc).value.value == Array(acc + DenoteItems(items))
    decreases |current|, 4
  {
    var before, value, after, next, item := FirstItem(current, acc);
    var k := Items(current, acc).value.rest;
    if next[0] == ']' {
      items := LastItem(before, value, after);
      CloseItems(before, value, after, next);
    } else {
      var tail := ItemsSound(TrimStart(next[1..]), acc + [item]);
      items := ContinueItems(before, value, after, next, tail, k);
      Associates(acc, Denote(value), DenoteItems(tail));
    }
  }

  /** The first item, and the text after it. */
  lemma {:induction false} FirstItem(current: string, acc: seq<Unknown>)
    returns (before: string, value: Cst, after: string, next: string, item: Unknown)
    requires Items(current, acc).Ok?
    ensures AllSpace(before) && Good(value) && AllSpace(after) && item == Denote(value)
    ensures next != "" && |next| < |current| && current == before + TextThen(value, after + next)
    ensures Items(current, acc) ==
      if next[0] == ']' then Ok(Parsed(Array(acc + [item]), next[1..]))
      else if next[0] == ',' then Items(TrimStart(next[1..]), acc + [item])
      else Err
    decreases |current|, 3
  {
    before, value := ValueSound(current);
    var parsed := Value(current).value;
    item := parsed.value;
    after := TrimSplits(parsed.rest);
    next := TrimStart(parsed.rest);
  }

  lemma {:induction false} ObjectSound(t: string) returns (c: Cst)
    requires t != "" && t[0] == '{' && ObjectLiteral(t).Ok?
    ensures Good(c) && (c.CObject? || c.CEmptyObject?)
    ensures t == TextThen(c, ObjectLiteral(t).value.rest) && ObjectLiteral(t).value.value == Denote(c)
    decreases |t|, 1
  {
    var space := TrimSplits(t[1..]);
    var current := TrimStart(t[1..]);
    assert t == "{" + t[1..];
    if current != "" && current[0] == '}' {
      c := CEmptyObject(space);
      assert current == "}" + current[1..];
      assert t == "{" + space + "}" + current[1..];
    } else {
      var members := MembersSound(current, map[]);
      MembersBeforeText(space, members, ObjectLiteral(t).value.rest, map[]);
      c := CObject(MembersBefore(space, members));
    }
  }

  lemma {:induction false} MembersSound(current: string, acc: map<string, Unknown>) returns (ms: CMembers)
    requires Members(current, acc).Ok?
    ensures GoodMembers(ms)
    ensures current == MembersThen(ms, Members(current, acc).value.rest)
    ensures Members(current, acc).value.value == Object(DenoteMembers(ms, acc))
    decreases |current|, 3
  {
    var chars, gap, lead, value, item := FirstMember(current, acc);
    var k := Members(current, acc).value.rest;
    var after := TrimSplits(item.rest);
    var next := TrimStart(item.rest);
    if next[0] == '}' {
      ms := LastMember("", chars, gap, lead, value, after);
      CloseMembers(ms, next);
    } else {
      var more := acc[Meaning(chars) := item.value];
      var tail := MembersSound(TrimStart(next[1..]), more);
      ms := ContinueMembers(MoreMembers("", chars, gap, lead, value, after, tail), acc, next, k);
    }
  }

  /** The first key and value, and the text from there on. */
  lemma {:induction false} FirstMember(current: string, acc: map<string, Unknown>)
    returns (chars: seq<CChar>, gap: string, lead: string, value: Cst, item: Parsed<Unknown>)
    requires Members(current, acc).Ok?
    ensures GoodChars(chars) && AllSpace(gap) && AllSpace(lead) && Good(value)
    ensures StringLiteral(current).value.value == Meaning(chars) && item.value == Denote(value)
    ensures Value(TrimStart(TrimStart(StringLiteral(current).value.rest)[1..])) == Ok(item) && |item.rest| < |current|
    ensures current == StringThen(chars, gap + (":" + (lead + TextThen(value, item.rest))))
    decreases |current|, 2
  {
    var lead0, inner;
    chars, gap, lead0 := KeySound(current);
    var text := TrimStart(TrimStart(StringLiteral(current).value.rest)[1..]);
    inner, value := ValueSound(text);
    item, lead := Value(text).value, lead0 + inner;
    LeadGrows(lead0, inner, TextThen(value, item.rest));
  }

  // ------------------------------------------------------------------
  // Documents
  // ------------------------------------------------------------------

  /** `s` is a tree's text with white space around it, and the tree denotes `v`. */
  ghost predicate Spells(s: string, v: Unknown) {
    exists before, c, after :: SpelledBy(s, v, before, c, after)
  }

  ghost predicate SpelledBy(s: string, v: Unknown, before: string, c: Cst, after: string) {
    AllSpace(before) && Good(c) && AllSpace(after) && s == before + TextThen(c, after) && Denote(c) == v
  }

  lemma DocumentSound(s: string)
    requires Document(s).Ok?
    ensures Spells(s, Document(s).value)
  {
    var t := TrimStart(s);
    var outer := TrimSplits(s);
    var space, c := ValueSound(t);
    var after := Value(t).value.rest;
    TrimAll(after);
    LeadGrows(outer, space, TextThen(c, after));
    assert SpelledBy(s, Document(s).value, outer + space, c, after);
  }

  lemma DocumentComplete(s: string, v: Unknown, before: string, c: Cst, after: string)
    requires SpelledBy(s, v, before, c, after)
    ensures Document(s) == Ok(v)
  {
    SpaceMayFollow(c, after);
    TextStart(c, after);
    TrimSpace(before, TextThen(c, after));
    TrimSolid(TextThen(c, after));
    ValueComplete(c, after);
    TrimAll(after);
  }

  /** Main theorem: the accepted documents are exactly the spelled ones, with the value they spell. */
  lemma DocumentIff(s: string, v: Unknown)
    ensures Document(s) == Ok(v) <==> Spells(s, v)
  {
    if Document(s) == Ok(v) {
      DocumentSound(s);
    }
    if Spells(s, v) {
      var before, c, after :| SpelledBy(s, v, before, c, after);
      DocumentComplete(s, v, before, c, after);
    }
  }

  // ------------------------------------------------------------------
  // Printed strings
  // ------------------------------------------------------------------

  /** How a printer writes a character: a short escape where there is one. */
  function WrittenChar(c: char): CChar {
    match c
    case '"' => Escaped('"')
    case '\\' => Escaped('\\')
    case '\n' => Escaped('n')
    case '\r' => Escaped('r')
    case '\t' => Escaped('t')
    case other =>
      if other == '\U{0008}' then Escaped('b') else if other == '\U{000C}' then Escaped('f') else Plain(other)
  }

  function WrittenChars(s: string): seq<CChar> {
    if s == "" then [] else [WrittenChar(s[0])] + WrittenChars(s[1..])
  }

  function Quoted(s: string): string {
    StringThen(WrittenChars(s), "")
  }

  lemma {:induction false} WrittenMeans(s: string)
    ensures GoodChars(WrittenChars(s)) && Meaning(WrittenChars(s)) == s
  {
    if s != "" {
      WrittenMeans(s[1..]);
    }
  }

  lemma {:induction false} CharsThenMore(cs: seq<CChar>, a: string, b: string)
    ensures CharsThen(cs, a) + b == CharsThen(cs, a + b)
  {
    if cs != [] {
      CharsThenMore(cs[1..], a, b);
      var text := match cs[0] case Plain(c) => [c] case Escaped(c) => ['\\', c];
      assert text + CharsThen(cs[1..], a) + b == text + (CharsThen(cs[1..], a) + b);
    }
  }

  /** Every string comes back from its quoted form, whatever follows. */
  lemma QuotedComesBack(s: string, k: string)
    ensures StringLiteral(Quoted(s) + k) == Ok(Parsed(s, k))
  {
    var cs := WrittenChars(s);
    WrittenMeans(s);
    StringComplete(cs, k);
    CharsThenMore(cs, "\"" + "", k);
    assert "\"" + "" + k == "\"" + k;
    assert Quoted(s) + k == "\"" + (CharsThen(cs, "\"" + "") + k);
  }

  /** Any other character but `u` stands for itself after a backslash. */
  lemma OtherEscapesAreThemselves(c: char, tail: string, out: string)
    requires c !in {'b', 'f', 'n', 'r', 't', 'u'}
    ensures StringBody(['\\', c] + tail, false, out) == StringBody(tail, false, out + [c])
  {
    BodyStep(Escaped(c), tail, out);
  }
}
