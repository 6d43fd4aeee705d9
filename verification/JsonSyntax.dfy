/**
  The syntax trees of JSON texts, as the parser accepts them, and the lemmas
  about the pieces of a text that do not need the mutual recursion.

  - Trees: a tree fixes every character of a text, that is white space, escapes,
    digits and the order of members.
  - `TextThen(c, k)` is the text of a tree with `k` after it; `Denote(c)` is the
    value of a tree; `MayFollow(c, k)` says what may stand after a number.
  - Strings and numbers are read completely and soundly.
  - Lists of items and members may be opened, continued and closed, and white
    space in front of the first entry belongs to that entry.
 */
module JsonSyntax {
  import opened Options
  import opened Text
  import opened Values
  import opened Json

  datatype CChar = Plain(c: char) | Escaped(c: char)

  datatype Cst =
    | CNull
    | CBool(flag: bool)
    | CInt(negative: bool, digits: string)
    | CFloat(negative: bool, digits: string, fraction: string)
    | CString(chars: seq<CChar>)
    | CEmptyArray(space: string)
    | CArray(items: CItems)
    | CEmptyObject(space: string)
    | CObject(members: CMembers)

  datatype CItems =
    | LastItem(before: string, value: Cst, after: string)
    | MoreItems(before: string, value: Cst, after: string, rest: CItems)

  datatype CMembers =
    | LastMember(before: string, key: seq<CChar>, gap: string, lead: string, value: Cst, after: string)
    | MoreMembers(before: string, key: seq<CChar>, gap: string, lead: string, value: Cst, after: string, rest: CMembers)

  // ------------------------------------------------------------------
  // Which trees are allowed
  // ------------------------------------------------------------------

  predicate GoodChar(x: CChar) {
    match x case Plain(c) => c != '"' && c != '\\' case Escaped(c) => c != 'u'
  }

  predicate GoodChars(cs: seq<CChar>) {
    forall k :: 0 <= k < |cs| ==> GoodChar(cs[k])
  }

  predicate IntInRange(negative: bool, digits: string) {
    && digits != ""
    && AllDigits(digits)
    && IsI64(IntOf(negative, digits))
  }

  predicate Good(c: Cst) {
    match c
    case CNull => true
    case CBool(_) => true
    case CInt(negative, digits) => IntInRange(negative, digits)
    case CFloat(_, digits, fraction) => digits != "" && AllDigits(digits) && AllDigits(fraction)
    case CString(chars) => GoodChars(chars)
    case CEmptyArray(space) => AllSpace(space)
    case CArray(items) => GoodItems(items)
    case CEmptyObject(space) => AllSpace(space)
    case CObject(members) => GoodMembers(members)
  }

  predicate GoodItems(items: CItems) {
    && AllSpace(items.before) && Good(items.value) && AllSpace(items.after)
    && (items.MoreItems? ==> GoodItems(items.rest))
  }

  predicate GoodMembers(ms: CMembers) {
    && AllSpace(ms.before) && GoodChars(ms.key) && AllSpace(ms.gap) && AllSpace(ms.lead)
    && Good(ms.value) && AllSpace(ms.after)
    && (ms.MoreMembers? ==> GoodMembers(ms.rest))
  }

  // ------------------------------------------------------------------
  // The text of a tree, followed by `k`
  // ------------------------------------------------------------------

  function CharsThen(cs: seq<CChar>, k: string): string {
    if cs == [] then k
    else (match cs[0] case Plain(c) => [c] case Escaped(c) => ['\\', c]) + CharsThen(cs[1..], k)
  }

  function StringThen(cs: seq<CChar>, k: string): string {
    "\"" + CharsThen(cs, "\"" + k)
  }

  function Sign(negative: bool): string {
    if negative then "-" else ""
  }

  function TextThen(c: Cst, k: string): string {
    match c
    case CNull => "null" + k
    case CBool(flag) => (if flag then "true" else "false") + k
    case CInt(negative, digits) => Sign(negative) + digits + k
    case CFloat(negative, digits, fraction) => Sign(negative) + digits + "." + fraction + k
    case CString(chars) => StringThen(chars, k)
    case CEmptyArray(space) => "[" + space + "]" + k
    case CArray(items) => "[" + ItemsThen(items, k)
    case CEmptyObject(space) => "{" + space + "}" + k
    case CObject(members) => "{" + MembersThen(members, k)
  }

  function ItemsThen(items: CItems, k: string): string {
    match items
    case LastItem(before, value, after) => before + TextThen(value, after + ("]" + k))
    case MoreItems(before, value, after, rest) => before + TextThen(value, after + ("," + ItemsThen(rest, k)))
  }

  function MembersThen(ms: CMembers, k: string): string {
    match ms
    case LastMember(before, key, gap, lead, value, after) =>
      before + StringThen(key, gap + (":" + (lead + TextThen(value, after + ("}" + k)))))
    case MoreMembers(before, key, gap, lead, value, after, rest) =>
      before + StringThen(key, gap + (":" + (lead + TextThen(value, after + ("," + MembersThen(rest, k))))))
  }

  // ------------------------------------------------------------------
  // What a tree denotes
  // ------------------------------------------------------------------

  /** The letters that stand for a control character after a backslash, from section 7 of RFC 8259. */
  const EscapeTable: map<char, char> :=
    map['b' := '\U{0008}', 't' := '\U{0009}', 'n' := '\U{000A}', 'f' := '\U{000C}', 'r' := '\U{000D}']

  function CharMeaning(x: CChar): char {
    match x
    case Plain(c) => c
    case Escaped(c) => if c in EscapeTable then EscapeTable[c] else c
  }

  function Meaning(cs: seq<CChar>): string {
    if cs == [] then "" else [CharMeaning(cs[0])] + Meaning(cs[1..])
  }

  function IntOf(negative: bool, digits: string): int
    requires AllDigits(digits)
  {
    if negative then -(NatValue(digits) as int) else NatValue(digits)
  }

  function Denote(c: Cst): Unknown
    requires Good(c)
  {
    match c
    case CNull => Null
    case CBool(flag) => Bool(flag)
    case CInt(negative, digits) => I64(IntOf(negative, digits))
    case CFloat(negative, digits, fraction) => F64(Sign(negative) + digits + "." + fraction)
    case CString(chars) => String(Meaning(chars))
    case CEmptyArray(_) => Array([])
    case CArray(items) => Array(DenoteItems(items))
    case CEmptyObject(_) => Object(map[])
    case CObject(members) => Object(DenoteMembers(members, map[]))
  }

  function DenoteItems(items: CItems): seq<Unknown>
    requires GoodItems(items)
  {
    if items.MoreItems? then [Denote(items.value)] + DenoteItems(items.rest) else [Denote(items.value)]
  }

  /** Members are added from left to right, so the last duplicate key wins. */
  function DenoteMembers(ms: CMembers, fields: map<string, Unknown>): map<string, Unknown>
    requires GoodMembers(ms)
  {
    var more := fields[Meaning(ms.key) := Denote(ms.value)];
    if ms.MoreMembers? then DenoteMembers(ms.rest, more) else more
  }

  /** Numbers end where the digits end, so digits (and a point) must not follow. */
  predicate MayFollow(c: Cst, k: string) {
    match c
    case CInt(_, _) => k == "" || (!IsDigit(k[0]) && k[0] != '.')
    case CFloat(_, _, _) => k == "" || !IsDigit(k[0])
    case _ => true
  }

  // ------------------------------------------------------------------
  // Strings
  // ------------------------------------------------------------------

  lemma {:induction false} BodyComplete(cs: seq<CChar>, k: string, out: string)
    requires GoodChars(cs)
    ensures StringBody(CharsThen(cs, "\"" + k), false, out) == Ok(Parsed(out + Meaning(cs), k))
    decreases |cs|
  {
    var s := CharsThen(cs, "\"" + k);
    if cs == [] {
      assert s[1..] == k;
      assert out + "" == out;
    } else {
      var c := CharMeaning(cs[0]);
      BodyStep(cs[0], CharsThen(cs[1..], "\"" + k), out);
      BodyComplete(cs[1..], k, out + [c]);
      assert (out + [c]) + Meaning(cs[1..]) == out + ([c] + Meaning(cs[1..]));
    }
  }

  /** One written character is read back as what it stands for. */
  lemma BodyStep(x: CChar, tail: string, out: string)
    requires GoodChar(x)
    ensures var text := match x case Plain(c) => [c] case Escaped(c) => ['\\', c];
            StringBody(text + tail, false, out) == StringBody(tail, false, out + [CharMeaning(x)])
  {
    match x
    case Plain(c) => assert ([c] + tail)[1..] == tail;
    case Escaped(c) => assert (['\\', c] + tail)[1..] == [c] + tail && ([c] + tail)[1..] == tail;
  }

  lemma StringComplete(cs: seq<CChar>, k: string)
    requires GoodChars(cs)
    ensures StringLiteral(StringThen(cs, k)) == Ok(Parsed(Meaning(cs), k))
  {
    BodyComplete(cs, k, "");
    assert StringThen(cs, k)[1..] == CharsThen(cs, "\"" + k);
    assert "" + Meaning(cs) == Meaning(cs);
  }

  /** A `\u` escape is never accepted: the four characters read start with the `u` itself. */
  lemma UnicodeEscapeFails(s: string)
    requires s != "" && s[0] == 'u'
    ensures EscapeAt(s).Err?
    ensures forall out :: StringBody(s, true, out).Err?
  {
  }

  /** The hexadecimal digit of a value, in upper or lower case. */
  function HexChar(v: nat, upper: bool): char
    requires v < 16
  {
    if upper then "0123456789ABCDEF"[v] else "0123456789abcdef"[v]
  }

  lemma HexCharReads(v: nat, upper: bool)
    requires v < 16
    ensures IsHex(HexChar(v, upper)) && HexValue(HexChar(v, upper)) == v
  {
  }

  /** The hexadecimal digits are these characters and no others. */
  lemma HexIff(c: char)
    ensures IsHex(c) <==> exists v: nat, upper :: v < 16 && c == HexChar(v, upper)
  {
    if IsHex(c) {
      assert HexChar(HexValue(c), 'A' <= c <= 'F') == c;
    }
  }

  function FourHex(a: nat, b: nat, c: nat, d: nat, upper: bool): string
    requires a < 16 && b < 16 && c < 16 && d < 16
  {
    [HexChar(a, upper), HexChar(b, upper), HexChar(c, upper), HexChar(d, upper)]
  }

  /** Four digits alone would be read as their code: only the `u` in front of them makes the escape fail. */
  lemma HexDigitsRead(a: nat, b: nat, c: nat, d: nat, upper: bool, tail: string)
    requires a < 16 && b < 16 && c < 16 && d < 16
    requires a != 13 || b < 8
    ensures var code := 4096 * a + 256 * b + 16 * c + d;
            !(0xD800 <= code <= 0xDFFF) && UnicodeEscape(FourHex(a, b, c, d, upper) + tail) == Ok(code as char)
  {
    HexCharReads(a, upper);
    HexCharReads(b, upper);
    HexCharReads(c, upper);
    HexCharReads(d, upper);
    var s := FourHex(a, b, c, d, upper) + tail;
    assert s[0] == HexChar(a, upper) && s[1] == HexChar(b, upper);
    assert s[2] == HexChar(c, upper) && s[3] == HexChar(d, upper);
    assert ((a * 16 + b) * 16 + c) * 16 + d == 4096 * a + 256 * b + 16 * c + d;
  }

  lemma {:induction false} BodySound(s: string, out: string) returns (cs: seq<CChar>)
    requires StringBody(s, false, out).Ok?
    ensures GoodChars(cs)
    ensures s == CharsThen(cs, "\"" + StringBody(s, false, out).value.rest)
    ensures StringBody(s, false, out).value.value == out + Meaning(cs)
    decreases |s|
  {
    var k := StringBody(s, false, out).value.rest;
    if s[0] == '"' {
      cs := [];
      assert s == "\"" + k;
    } else if s[0] == '\\' {
      var c := s[1];
      assert s[1..][1..] == s[2..] && s[1..][0] == c;
      if c == 'u' {
        UnicodeEscapeFails(s[1..]);
      }
      var tail := BodySound(s[2..], out + [Unescape(c)]);
      cs := [Escaped(c)] + tail;
      assert s == ['\\', c] + s[2..];
      assert CharMeaning(cs[0]) == Unescape(c);
      assert (out + [Unescape(c)]) + Meaning(tail) == out + Meaning(cs);
    } else {
      var tail := BodySound(s[1..], out + [s[0]]);
      cs := [Plain(s[0])] + tail;
      assert s == [s[0]] + s[1..];
      assert (out + [s[0]]) + Meaning(tail) == out + Meaning(cs);
    }
  }

  lemma StringSound(s: string) returns (cs: seq<CChar>)
    requires StringLiteral(s).Ok?
    ensures GoodChars(cs)
    ensures s == StringThen(cs, StringLiteral(s).value.rest)
    ensures StringLiteral(s).value.value == Meaning(cs)
  {
    cs := BodySound(s[1..], "");
    assert s == "\"" + s[1..];
    assert "" + Meaning(cs) == Meaning(cs);
  }

  // ------------------------------------------------------------------
  // Numbers
  // ------------------------------------------------------------------

  /** A number is read as sign, digits and what follows them. */
  lemma NumberFromParts(negative: bool, digits: string, tail: string)
    requires digits != "" && AllDigits(digits) && (tail == "" || !IsDigit(tail[0]))
    ensures NumberLiteral(Sign(negative) + digits + tail) == NumberFrom(Sign(negative) + digits, tail)
  {
    var s := Sign(negative) + digits + tail;
    assert s[|Sign(negative)|..] == digits + tail;
    assert s[0] == if negative then '-' else digits[0];
    DigitRunOf(digits, tail);
    var end := |Sign(negative)| + |digits|;
    assert s[..end] == Sign(negative) + digits && s[end..] == tail;
  }

  lemma FractionTail(head: string, fraction: string, k: string)
    requires AllDigits(fraction) && (k == "" || !IsDigit(k[0]))
    ensures NumberFrom(head, "." + fraction + k) == Ok(Parsed(F64(head + "." + fraction), k))
  {
    var tail := "." + fraction + k;
    assert tail[1..] == fraction + k;
    DigitRunOf(fraction, k);
    assert tail[..1 + |fraction|] == "." + fraction && tail[1 + |fraction|..] == k;
    assert head + ("." + fraction) == head + "." + fraction;
  }

  lemma SignedDigits(negative: bool, digits: string)
    requires digits != "" && AllDigits(digits)
    ensures ParseI64(Sign(negative) + digits) ==
      if IntInRange(negative, digits) then Some(IntOf(negative, digits)) else None
  {
    assert (Sign(negative) + digits)[|Sign(negative)|..] == digits;
    assert !negative ==> Sign(negative) + digits == digits && IsDigit(digits[0]);
  }

  lemma IntComplete(negative: bool, digits: string, k: string)
    requires IntInRange(negative, digits) && MayFollow(CInt(negative, digits), k)
    ensures NumberLiteral(Sign(negative) + digits + k) == Ok(Parsed(I64(IntOf(negative, digits)), k))
  {
    NumberFromParts(negative, digits, k);
    SignedDigits(negative, digits);
  }

  lemma FloatComplete(negative: bool, digits: string, fraction: string, k: string)
    requires digits != "" && AllDigits(digits) && AllDigits(fraction) && (k == "" || !IsDigit(k[0]))
    ensures NumberLiteral(Sign(negative) + digits + "." + fraction + k)
         == Ok(Parsed(F64(Sign(negative) + digits + "." + fraction), k))
  {
    NumberFromParts(negative, digits, "." + fraction + k);
    FractionTail(Sign(negative) + digits, fraction, k);
    Regroup(Sign(negative) + digits, fraction, k);
  }

  lemma Regroup(head: string, fraction: string, k: string)
    ensures head + ("." + fraction + k) == head + "." + fraction + k
  {
  }

  lemma SplitNumber(s: string) returns (negative: bool, digits: string, tail: string)
    requires s != "" && DigitRun(s[|Sign(s[0] == '-')|..]) > 0
    ensures digits != "" && AllDigits(digits) && (tail == "" || !IsDigit(tail[0]))
    ensures s == Sign(negative) + digits + tail
  {
    negative := s[0] == '-';
    var start := |Sign(negative)|;
    digits, tail := CutAtDigits(s[start..]);
    assert s == Sign(negative) + s[start..];
  }

  lemma CutAtDigits(body: string) returns (digits: string, tail: string)
    ensures |digits| == DigitRun(body) && AllDigits(digits) && (tail == "" || !IsDigit(tail[0]))
    ensures body == digits + tail
    ensures forall head: string :: head + body == head + digits + tail
  {
    var n := DigitRun(body);
    digits, tail := body[..n], body[n..];
  }

  lemma SplitFraction(tail: string) returns (fraction: string, k: string)
    requires tail != "" && tail[0] == '.'
    ensures AllDigits(fraction) && (k == "" || !IsDigit(k[0])) && tail == "." + fraction + k
  {
    var m := DigitRun(tail[1..]);
    fraction, k := tail[1..][..m], tail[1..][m..];
  }

  lemma NumberSound(s: string) returns (c: Cst)
    requires NumberLiteral(s).Ok?
    ensures Good(c) && s == TextThen(c, NumberLiteral(s).value.rest)
    ensures Denote(c) == NumberLiteral(s).value.value
    ensures MayFollow(c, NumberLiteral(s).value.rest)
  {
    var negative, digits, tail := SplitNumber(s);
    NumberFromParts(negative, digits, tail);
    if tail != "" && tail[0] == '.' {
      var fraction, k := SplitFraction(tail);
      c := CFloat(negative, digits, fraction);
      FractionTail(Sign(negative) + digits, fraction, k);
      Regroup(Sign(negative) + digits, fraction, k);
    } else {
      c := CInt(negative, digits);
      SignedDigits(negative, digits);
    }
  }

  // ------------------------------------------------------------------
  // Lists of items and members
  // ------------------------------------------------------------------

  /** The first character of a tree's text decides the branch the parser takes. */
  lemma TextStart(c: Cst, k: string)
    requires Good(c)
    ensures var s := TextThen(c, k);
            && s != "" && !IsSpace(s[0]) && s[0] != ']'
            && match c
               case CNull => s[0] == 'n'
               case CBool(_) => s[0] in {'t', 'f'}
               case CInt(_, _) => s[0] == '-' || IsDigit(s[0])
               case CFloat(_, _, _) => s[0] == '-' || IsDigit(s[0])
               case CString(_) => s[0] == '"'
               case CEmptyArray(_) => s[0] == '['
               case CArray(_) => s[0] == '['
               case CEmptyObject(_) => s[0] == '{'
               case CObject(_) => s[0] == '{'
  {
    match c
    case CInt(negative, digits) => assert TextThen(c, k)[0] == if negative then '-' else digits[0];
    case CFloat(negative, digits, _) => assert TextThen(c, k)[0] == if negative then '-' else digits[0];
    case _ =>
  }

  /** White space and a delimiter may follow any value. */
  lemma AfterValue(c: Cst, after: string, tail: string)
    requires AllSpace(after) && tail != "" && tail[0] in {']', '}', ','}
    ensures MayFollow(c, after + tail) && TrimStart(after + tail) == tail
  {
    TrimSpace(after, tail);
    TrimSolid(tail);
  }

  function ItemsBefore(space: string, items: CItems): CItems {
    match items
    case LastItem(b, v, a) => LastItem(space + b, v, a)
    case MoreItems(b, v, a, rest) => MoreItems(space + b, v, a, rest)
  }

  lemma ItemsBeforeText(space: string, items: CItems, k: string)
    requires AllSpace(space) && GoodItems(items)
    ensures GoodItems(ItemsBefore(space, items)) && DenoteItems(ItemsBefore(space, items)) == DenoteItems(items)
    ensures ItemsThen(ItemsBefore(space, items), k) == space + ItemsThen(items, k)
  {
    var tail := TextThen(items.value,
        items.after + (if items.LastItem? then "]" + k else "," + ItemsThen(items.rest, k)));
    assert (space + items.before) + tail == space + (items.before + tail);
  }

  lemma OpenItems(space: string, items: CItems, current: string, rest: string)
    requires AllSpace(space) && GoodItems(items) && current == ItemsThen(items, rest)
    ensures Good(CArray(ItemsBefore(space, items)))
    ensures "[" + (space + current) == TextThen(CArray(ItemsBefore(space, items)), rest)
    ensures DenoteItems(ItemsBefore(space, items)) == DenoteItems(items)
  {
    ItemsBeforeText(space, items, rest);
  }

  function MembersBefore(space: string, ms: CMembers): CMembers {
    match ms
    case LastMember(b, key, g, l, v, a) => LastMember(space + b, key, g, l, v, a)
    case MoreMembers(b, key, g, l, v, a, rest) => MoreMembers(space + b, key, g, l, v, a, rest)
  }

  lemma MembersBeforeText(space: string, ms: CMembers, k: string, acc: map<string, Unknown>)
    requires AllSpace(space) && GoodMembers(ms)
    ensures GoodMembers(MembersBefore(space, ms)) &&
        DenoteMembers(MembersBefore(space, ms), acc) == DenoteMembers(ms, acc)
    ensures MembersThen(MembersBefore(space, ms), k) == space + MembersThen(ms, k)
  {
    var text := TextThen(ms.value, ms.after + (if ms.LastMember? then "}" + k else "," + MembersThen(ms.rest, k)));
    var tail := StringThen(ms.key, ms.gap + (":" + (ms.lead + text)));
    assert (space + ms.before) + tail == space + (ms.before + tail);
  }

  lemma CloseItems(before: string, value: Cst, after: string, next: string)
    requires next != "" && next[0] == ']'
    ensures ItemsThen(LastItem(before, value, after), next[1..]) == before + TextThen(value, after + next)
  {
    assert next == "]" + next[1..];
  }

  lemma ContinueItems(before: string, value: Cst, after: string, next: string, tail: CItems,
                      k: string) returns (items: CItems)
    requires AllSpace(before) && Good(value) && AllSpace(after) && GoodItems(tail)
    requires next != "" && next[0] == ',' && TrimStart(next[1..]) == ItemsThen(tail, k)
    ensures GoodItems(items) && DenoteItems(items) == [Denote(value)] + DenoteItems(tail)
    ensures ItemsThen(items, k) == before + TextThen(value, after + next)
  {
    var space := TrimSplits(next[1..]);
    ItemsBeforeText(space, tail, k);
    items := MoreItems(before, value, after, ItemsBefore(space, tail));
    assert next == "," + ItemsThen(ItemsBefore(space, tail), k);
  }

  /** The part of a member up to its value. */
  lemma KeySound(current: string) returns (chars: seq<CChar>, gap: string, lead: string)
    requires StringLiteral(current).Ok?
    requires TrimStart(StringLiteral(current).value.rest) != "" &&
        TrimStart(StringLiteral(current).value.rest)[0] == ':'
    ensures GoodChars(chars) && AllSpace(gap) && AllSpace(lead) && StringLiteral(current).value.value == Meaning(chars)
    ensures current ==
        StringThen(chars, gap + (":" + (lead + TrimStart(TrimStart(StringLiteral(current).value.rest)[1..]))))
  {
    chars := StringSound(current);
    gap := TrimSplits(StringLiteral(current).value.rest);
    var colon := TrimStart(StringLiteral(current).value.rest);
    assert colon == ":" + colon[1..];
    lead := TrimSplits(colon[1..]);
  }

  lemma CloseMembers(ms: CMembers, next: string)
    requires ms.LastMember? && ms.before == "" && next != "" && next[0] == '}'
    ensures MembersThen(ms, next[1..]) ==
        StringThen(ms.key, ms.gap + (":" + (ms.lead + TextThen(ms.value, ms.after + next))))
  {
    assert next == "}" + next[1..];
    EmptyPrefix(StringThen(ms.key, ms.gap + (":" + (ms.lead + TextThen(ms.value, ms.after + next)))));
  }

  lemma EmptyPrefix(s: string)
    ensures "" + s == s
  {
  }

  lemma ContinueMembers(ms0: CMembers, acc: map<string, Unknown>, next: string, k: string) returns (ms: CMembers)
    requires ms0.MoreMembers? && ms0.before == "" && GoodMembers(ms0)
    requires next != "" && next[0] == ',' && TrimStart(next[1..]) == MembersThen(ms0.rest, k)
    ensures GoodMembers(ms) && DenoteMembers(ms, acc) == DenoteMembers(ms0, acc)
    ensures MembersThen(ms, k) ==
        StringThen(ms0.key, ms0.gap + (":" + (ms0.lead + TextThen(ms0.value, ms0.after + next))))
  {
    var space := TrimSplits(next[1..]);
    MembersBeforeText(space, ms0.rest, k, acc[Meaning(ms0.key) := Denote(ms0.value)]);
    ms := ms0.(rest := MembersBefore(space, ms0.rest));
    assert next == "," + MembersThen(ms.rest, k);
    EmptyPrefix(StringThen(ms0.key, ms0.gap + (":" + (ms0.lead + TextThen(ms0.value, ms0.after + next)))));
  }

  lemma LeadGrows(lead: string, inner: string, text: string)
    requires AllSpace(lead) && AllSpace(inner)
    ensures lead + (inner + text) == (lead + inner) + text && AllSpace(lead + inner)
  {
  }

  lemma Associates(acc: seq<Unknown>, v: Unknown, tail: seq<Unknown>)
    ensures (acc + [v]) + tail == acc + ([v] + tail)
  {
  }

  lemma LiteralSound(s: string, word: string, value: Unknown)
    requires Literal(s, word, value).Ok?
    ensures s == word + Literal(s, word, value).value.rest
  {
  }

  lemma SpaceMayFollow(c: Cst, after: string)
    requires AllSpace(after)
    ensures MayFollow(c, after)
  {
    assert after != "" ==> IsSpace(after[0]);
  }
}
