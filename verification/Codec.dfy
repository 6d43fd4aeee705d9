/**
  Parser combinators and codecs: a codec pairs a parser with a printer.

  A codec round-trips on a domain of values and a set of texts that may follow:
  printing a value and parsing it back gives the value and leaves what follows.

  Strings round-trip whatever follows, integers unless a digit follows; mapping,
  pairs and nonempty lists keep round trips under conditions stated below.
 */
module Codec {
  import opened Options
  import opened Text

  type Parser<!A> = string -> Option<(A, string)>

  datatype Codec<!A> = Codec(parse: string -> Option<(A, string)>, render: A -> string)

  // ------------------------------------------------------------------
  // Combinators
  // ------------------------------------------------------------------

  function MapParser<A, B>(p: Parser<A>, f: A -> B): Parser<B> {
    s => match p(s)
         case None => None
         case Some(r) => Some((f(r.0), r.1))
  }

  function AndThen<A, B>(p: Parser<A>, f: A -> Parser<B>): Parser<B> {
    s => match p(s)
         case None => None
         case Some(r) => f(r.0)(r.1)
  }

  function CharParser(expected: char): Parser<char> {
    s => if s != "" && s[0] == expected then Some((s[0], s[1..])) else None
  }

  function Void<A>(p: Parser<A>): Parser<()> {
    MapParser(p, (a: A) => ())
  }

  /** The parser never returns more text than it was given. */
  ghost predicate NonGrowing<A>(p: Parser<A>) {
    forall s :: p(s).Some? ==> |p(s).value.1| <= |s|
  }

  ghost predicate Consuming<A>(p: Parser<A>) {
    forall s :: p(s).Some? ==> |p(s).value.1| < |s|
  }

  /** The loop of `sep_by`: `out` has been read and `rest` is left. */
  function SepMore<A>(value: Parser<A>, separator: Parser<()>, out: seq<A>, rest: string): (r: Option<(seq<A>, string)>)
    requires NonGrowing(value) && Consuming(separator)
    ensures r.Some? ==> |r.value.0| >= |out| && |r.value.1| <= |rest|
    decreases |rest|
  {
    match separator(rest)
    case None => Some((out, rest))
    case Some(sep) =>
      match value(sep.1)
      case None => None
      case Some(item) => SepMore(value, separator, out + [item.0], item.1)
  }

  function SepBy<A>(value: Parser<A>, separator: Parser<()>): Parser<seq<A>>
    requires NonGrowing(value) && Consuming(separator)
  {
    s => match value(s)
         case None => None
         case Some(first) => SepMore(value, separator, [first.0], first.1)
  }

  method RunSepBy<A>(value: Parser<A>, separator: Parser<()>, input: string) returns (r: Option<(seq<A>, string)>)
    requires NonGrowing(value) && Consuming(separator)
    ensures r == SepBy(value, separator)(input)
  {
    var first := value(input);
    if first.None? {
      return None;
    }
    var out, rest := [first.value.0], first.value.1;
    while true
      invariant SepBy(value, separator)(input) == SepMore(value, separator, out, rest)
      decreases |rest|
    {
      var sep := separator(rest);
      if sep.None? {
        return Some((out, rest));
      }
      var item := value(sep.value.1);
      if item.None? {
        return None;
      }
      out, rest := out + [item.value.0], item.value.1;
    }
  }

  /** Read in order: one item, then a separator and an item as often as a separator follows. */
  ghost predicate Reads<A>(value: Parser<A>, separator: Parser<()>, s: string, items: seq<A>, rest: string)
    decreases |items|
  {
    && items != [] && value(s).Some? && value(s).value.0 == items[0]
    && (var next := separator(value(s).value.1);
        if |items| == 1 then next.None? && rest == value(s).value.1
        else next.Some? && Reads(value, separator, next.value.1, items[1..], rest))
  }

  lemma {:induction false} SepMoreIff<A>(value: Parser<A>, separator: Parser<()>, s: string, out: seq<A>,
                                         items: seq<A>, rest: string)
    requires NonGrowing(value) && Consuming(separator) && value(s).Some?
    ensures SepMore(value, separator, out + [value(s).value.0], value(s).value.1) == Some((out + items, rest)) <==>
            Reads(value, separator, s, items, rest)
    decreases |s|
  {
    var first := value(s).value;
    var next := separator(first.1);
    if next.None? {
      assert (out + items)[|out|..] == items && (out + [first.0])[|out|..] == [first.0];
      assert |items| == 1 ==> items == [items[0]];
    } else if value(next.value.1).Some? {
      var second := value(next.value.1).value;
      var more := out + [first.0];
      SepMoreIff(value, separator, next.value.1, more, if items == [] then [] else items[1..], rest);
      SepMoreKeeps(value, separator, more + [second.0], second.1);
      if items != [] {
        assert items[0] == first.0 ==> more + items[1..] == out + items;
        assert (out + items)[|out|] == items[0];
      }
    }
  }

  /** What has been read stays in front. */
  lemma {:induction false} SepMoreKeeps<A>(value: Parser<A>, separator: Parser<()>, out: seq<A>, rest: string)
    requires NonGrowing(value) && Consuming(separator)
    ensures var r := SepMore(value, separator, out, rest); r.Some? ==> out <= r.value.0
    decreases |rest|
  {
    if separator(rest).Some? && value(separator(rest).value.1).Some? {
      var item := value(separator(rest).value.1).value;
      SepMoreKeeps(value, separator, out + [item.0], item.1);
    }
  }

  /** The list parser returns exactly the lists that can be read so; a separator without an item fails it. */
  lemma SepByIff<A>(value: Parser<A>, separator: Parser<()>, s: string, items: seq<A>, rest: string)
    requires NonGrowing(value) && Consuming(separator)
    ensures SepBy(value, separator)(s) == Some((items, rest)) <==> Reads(value, separator, s, items, rest)
  {
    if value(s).Some? {
      SepMoreIff(value, separator, s, [], items, rest);
      assert [] + [value(s).value.0] == [value(s).value.0] && [] + items == items;
    }
  }

  // ------------------------------------------------------------------
  // Round trips
  // ------------------------------------------------------------------

  ghost predicate RoundTrips<A(!new)>(c: Codec<A>, domain: A -> bool, follow: string -> bool) {
    forall v, rest :: domain(v) && follow(rest) ==> c.parse(c.render(v) + rest) == Some((v, rest))
  }

  function MapCodec<A, B>(c: Codec<A>, to: A -> B, from: B -> A): Codec<B> {
    Codec(MapParser(c.parse, to), u => c.render(from(u)))
  }

  /** Mapping keeps round trips when `to` undoes `from`. */
  lemma MapRoundTrips<A(!new), B(!new)>(c: Codec<A>, to: A -> B, from: B -> A, domain: A -> bool, image: B -> bool,
                                        follow: string -> bool)
    requires RoundTrips(c, domain, follow)
    requires forall u :: image(u) ==> domain(from(u)) && to(from(u)) == u
    ensures RoundTrips(MapCodec(c, to, from), image, follow)
  {
  }

  function Pair<A, B>(left: Codec<A>, right: Codec<B>): Codec<(A, B)> {
    Codec(AndThen(left.parse, (a: A) => MapParser(right.parse, (b: B) => (a, b))),
          (p: (A, B)) => left.render(p.0) + right.render(p.1))
  }

  /** Pairing keeps round trips when whatever the right codec prints may follow the left one. */
  lemma PairRoundTrips<A(!new), B(!new)>(left: Codec<A>, right: Codec<B>, inLeft: A -> bool, inRight: B -> bool,
                                        afterLeft: string -> bool, afterRight: string -> bool)
    requires RoundTrips(left, inLeft, afterLeft) && RoundTrips(right, inRight, afterRight)
    requires forall b, rest :: inRight(b) && afterRight(rest) ==> afterLeft(right.render(b) + rest)
    ensures RoundTrips(Pair(left, right), (p: (A, B)) => inLeft(p.0) && inRight(p.1), afterRight)
  {
    var c := Pair(left, right);
    forall v: (A, B), rest | inLeft(v.0) && inRight(v.1) && afterRight(rest)
      ensures c.parse(c.render(v) + rest) == Some((v, rest))
    {
      var tail := right.render(v.1) + rest;
      assert c.render(v) + rest == left.render(v.0) + tail;
      assert left.parse(left.render(v.0) + tail) == Some((v.0, tail));
      assert right.parse(tail) == Some((v.1, rest));
    }
  }

  function PrintAll<A>(c: Codec<A>, items: seq<A>): seq<string> {
    if items == [] then [] else [c.render(items[0])] + PrintAll(c, items[1..])
  }

  function Comma(): Parser<()> {
    Void(CharParser(','))
  }

  function ListOf<A>(item: Codec<A>): Codec<seq<A>>
    requires NonGrowing(item.parse)
  {
    assert Consuming(Comma());
    Codec(SepBy(item.parse, Comma()), (items: seq<A>) => Join(PrintAll(item, items), ','))
  }

  ghost predicate AllIn<A>(domain: A -> bool, items: seq<A>) {
    forall k :: 0 <= k < |items| ==> domain(items[k])
  }

  predicate StartsWithComma(s: string) {
    s != "" && s[0] == ','
  }

  /** The items still to read, printed with a comma before each. */
  function MoreText<A>(item: Codec<A>, items: seq<A>, rest: string): string {
    if items == [] then rest else [','] + (item.render(items[0]) + MoreText(item, items[1..], rest))
  }

  /** One more round of the loop reads one more item. */
  lemma SepStep<A>(item: Codec<A>, out: seq<A>, v: A, tail: string)
    requires NonGrowing(item.parse) && Consuming(Comma())
    requires item.parse(item.render(v) + tail) == Some((v, tail))
    ensures SepMore(item.parse, Comma(), out, [','] + (item.render(v) + tail)) ==
        SepMore(item.parse, Comma(), out + [v], tail)
  {
    var text := [','] + (item.render(v) + tail);
    assert text[1..] == item.render(v) + tail;
    assert Comma()(text) == Some(((), item.render(v) + tail));
  }

  /** Each item, printed before the items after it, is read back. */
  ghost predicate AllRead<A>(item: Codec<A>, items: seq<A>, rest: string)
    decreases |items|
  {
    items == [] ||
    (var tail := MoreText(item, items[1..], rest);
     item.parse(item.render(items[0]) + tail) == Some((items[0], tail)) && AllRead(item, items[1..], rest))
  }

  lemma {:induction false} LawGivesAllRead<A(!new)>(item: Codec<A>, domain: A -> bool, follow: string -> bool,
                                                    items: seq<A>, rest: string)
    requires RoundTrips(item, domain, follow) && AllIn(domain, items) && follow(rest)
    requires forall s :: StartsWithComma(s) ==> follow(s)
    ensures AllRead(item, items, rest)
    decreases |items|
  {
    if items != [] {
      assert domain(items[0]) && follow(MoreText(item, items[1..], rest));
      LawGivesAllRead(item, domain, follow, items[1..], rest);
    }
  }

  lemma {:induction false} SepMoreReads<A>(item: Codec<A>, out: seq<A>, items: seq<A>, rest: string)
    requires NonGrowing(item.parse) && Consuming(Comma())
    requires AllRead(item, items, rest) && !StartsWithComma(rest)
    ensures SepMore(item.parse, Comma(), out, MoreText(item, items, rest)) == Some((out + items, rest))
    decreases |items|
  {
    if items == [] {
      assert Comma()(rest).None?;
      assert out + items == out;
    } else {
      SepStep(item, out, items[0], MoreText(item, items[1..], rest));
      SepMoreReads(item, out + [items[0]], items[1..], rest);
      assert (out + [items[0]]) + items[1..] == out + items;
    }
  }

  lemma {:induction false} JoinIsMoreText<A>(item: Codec<A>, items: seq<A>, rest: string)
    requires items != []
    ensures Join(PrintAll(item, items), ',') + rest == item.render(items[0]) + MoreText(item, items[1..], rest)
    decreases |items|
  {
    if |items| > 1 {
      JoinIsMoreText(item, items[1..], rest);
      var head, tail := item.render(items[0]), Join(PrintAll(item, items[1..]), ',');
      assert PrintAll(item, items)[1..] == PrintAll(item, items[1..]);
      assert |PrintAll(item, items[1..])| > 0;
      assert Join(PrintAll(item, items), ',') == head + [','] + tail;
      assert head + [','] + tail + rest == head + ([','] + (tail + rest));
    } else {
      assert PrintAll(item, items[1..]) == [] && items[1..] == [];
    }
  }

  /** Main theorem: lists keep round trips on every nonempty list. */
  lemma ListRoundTrips<A(!new)>(item: Codec<A>, domain: A -> bool, follow: string -> bool)
    requires NonGrowing(item.parse) && RoundTrips(item, domain, follow)
    requires forall s :: StartsWithComma(s) ==> follow(s)
    ensures forall items, rest :: items != [] && AllIn(domain, items) && follow(rest) && !StartsWithComma(rest) ==>
      ListOf(item).parse(ListOf(item).render(items) + rest) == Some((items, rest))
  {
    assert Consuming(Comma());
    forall items, rest | items != [] && AllIn(domain, items) && follow(rest) && !StartsWithComma(rest)
      ensures ListOf(item).parse(ListOf(item).render(items) + rest) == Some((items, rest))
    {
      JoinIsMoreText(item, items, rest);
      LawGivesAllRead(item, domain, follow, items, rest);
      SepMoreReads(item, [items[0]], items[1..], rest);
      assert [items[0]] + items[1..] == items;
    }
  }

  /** The empty list never comes back: the list parser returns at least one item or fails. */
  lemma EmptyListNeverParses<A(!new)>(item: Codec<A>, s: string)
    requires NonGrowing(item.parse)
    ensures ListOf(item).parse(s).Some? ==> ListOf(item).parse(s).value.0 != []
  {
  }

  // ------------------------------------------------------------------
  // Quoted strings
  // ------------------------------------------------------------------

  /** The printer's escaping: four passes over the whole text. */
  function Escape(s: string): string {
    ReplaceChar(ReplaceChar(ReplaceChar(ReplaceChar(s, '\\', "\\\\"), '"', "\\\""), '\n', "\\n"), '\t', "\\t")
  }

  function EscapeChar(c: char): string {
    match c
    case '\\' => "\\\\"
    case '"' => "\\\""
    case '\n' => "\\n"
    case '\t' => "\\t"
    case other => [other]
  }

  function EscapeEach(s: string): string {
    if s == "" then "" else EscapeChar(s[0]) + EscapeEach(s[1..])
  }

  lemma OneChar(x: char, c: char, with: string)
    ensures ReplaceChar([x], c, with) == if x == c then with else [x]
  {
    assert [x][1..] == "";
    assert with + "" == with;
  }

  lemma TwoChars(x: char, y: char, c: char, with: string)
    requires x != c && y != c
    ensures ReplaceChar([x, y], c, with) == [x, y]
  {
    assert [x, y] == [x] + [y];
    ReplaceCharConcat([x], [y], c, with);
    OneChar(x, c, with);
    OneChar(y, c, with);
  }

  lemma EscapeOne(c: char)
    ensures Escape([c]) == EscapeChar(c)
  {
    OneChar(c, '\\', "\\\\");
    OneChar(c, '"', "\\\"");
    OneChar(c, '\n', "\\n");
    OneChar(c, '\t', "\\t");
    TwoChars('\\', '\\', '"', "\\\"");
    TwoChars('\\', '\\', '\n', "\\n");
    TwoChars('\\', '"', '\n', "\\n");
    TwoChars('\\', '\\', '\t', "\\t");
    TwoChars('\\', '"', '\t', "\\t");
    TwoChars('\\', 'n', '\t', "\\t");
  }

  /** The four passes do not interfere: together they escape each character once. */
  lemma {:induction false} EscapeIsPerCharacter(s: string)
    ensures Escape(s) == EscapeEach(s)
  {
    if s != "" {
      var head, tail := [s[0]], s[1..];
      assert s == head + tail;
      EscapeOne(s[0]);
      EscapeIsPerCharacter(tail);
      EscapeConcat(head, tail);
    }
  }

  lemma EscapeConcat(a: string, b: string)
    ensures Escape(a + b) == Escape(a) + Escape(b)
  {
    ReplaceCharConcat(a, b, '\\', "\\\\");
    var a1, b1 := ReplaceChar(a, '\\', "\\\\"), ReplaceChar(b, '\\', "\\\\");
    ReplaceCharConcat(a1, b1, '"', "\\\"");
    var a2, b2 := ReplaceChar(a1, '"', "\\\""), ReplaceChar(b1, '"', "\\\"");
    ReplaceCharConcat(a2, b2, '\n', "\\n");
    ReplaceCharConcat(ReplaceChar(a2, '\n', "\\n"), ReplaceChar(b2, '\n', "\\n"), '\t', "\\t");
  }

  function Unescaped(c: char): char {
    match c
    case 'n' => '\n'
    case 't' => '\t'
    case other => other
  }

  /** The string parser after the opening quote. */
  function QuotedBody(s: string, escaped: bool, out: string): (r: Option<(string, string)>)
    ensures r.Some? ==> |r.value.1| < |s|
  {
    if s == "" then None
    else if escaped then QuotedBody(s[1..], false, out + [Unescaped(s[0])])
    else if s[0] == '\\' then QuotedBody(s[1..], true, out)
    else if s[0] == '"' then Some((out, s[1..]))
    else QuotedBody(s[1..], false, out + [s[0]])
  }

  function ParseQuoted(s: string): (r: Option<(string, string)>)
    ensures r.Some? ==> |r.value.1| < |s|
  {
    if s == "" || s[0] != '"' then None else QuotedBody(s[1..], false, "")
  }

  method RunQuoted(s: string) returns (r: Option<(string, string)>)
    ensures r == ParseQuoted(s)
  {
    if s == "" || s[0] != '"' {
      return None;
    }
    var out := "";
    var escaped := false;
    var k := 1;
    while k < |s|
      invariant 1 <= k <= |s|
      invariant ParseQuoted(s) == QuotedBody(s[k..], escaped, out)
    {
      assert s[k..][1..] == s[k + 1..];
      if escaped {
        out, escaped := out + [Unescaped(s[k])], false;
      } else if s[k] == '\\' {
        escaped := true;
      } else if s[k] == '"' {
        return Some((out, s[k + 1..]));
      } else {
        out := out + [s[k]];
      }
      k := k + 1;
    }
    r := None;
  }

  function QuotedString(): Codec<string> {
    Codec((s: string) => ParseQuoted(s), (v: string) => "\"" + Escape(v) + "\"")
  }

  /** One escaped character is read back as itself. */
  lemma QuotedStep(c: char, tail: string, out: string)
    ensures QuotedBody(EscapeChar(c) + tail, false, out) == QuotedBody(tail, false, out + [c])
  {
    var text := EscapeChar(c) + tail;
    if |EscapeChar(c)| == 2 {
      assert text[1..][1..] == tail && text[1..][0] == EscapeChar(c)[1];
    } else {
      assert text[1..] == tail;
    }
  }

  /** After a backslash every character but `n` and `t` stands for itself. */
  lemma OtherEscapesAreThemselves(c: char, tail: string, out: string)
    requires c != 'n' && c != 't'
    ensures QuotedBody(['\\', c] + tail, false, out) == QuotedBody(tail, false, out + [c])
  {
    var text := ['\\', c] + tail;
    assert text[1..][0] == c && text[1..][1..] == tail;
  }

  /** The text between the quotes spells `v`: escapes stand for one character each, and no quote is bare. */
  predicate Spells(text: string, v: string)
    decreases |text|
  {
    if text == "" then v == ""
    else if text[0] == '\\' then |text| > 1 && v != "" && v[0] == Unescaped(text[1]) && Spells(text[2..], v[1..])
    else text[0] != '"' && v != "" && v[0] == text[0] && Spells(text[1..], v[1..])
  }

  lemma {:induction false} SpelledIsRead(text: string, v: string, rest: string, out: string)
    requires Spells(text, v)
    ensures QuotedBody(text + ("\"" + rest), false, out) == Some((out + v, rest))
    decreases |text|
  {
    var s := text + ("\"" + rest);
    if text == "" {
      assert s[1..] == rest && out + v == out;
    } else if text[0] == '\\' {
      assert s[1..][0] == text[1] && s[1..][1..] == text[2..] + ("\"" + rest);
      SpelledIsRead(text[2..], v[1..], rest, out + [v[0]]);
      assert out + [v[0]] + v[1..] == out + v;
    } else {
      assert s[1..] == text[1..] + ("\"" + rest);
      SpelledIsRead(text[1..], v[1..], rest, out + [v[0]]);
      assert out + [v[0]] + v[1..] == out + v;
    }
  }

  lemma {:induction false} ReadIsSpelled(s: string, out: string) returns (text: string, v: string)
    requires QuotedBody(s, false, out).Some?
    ensures s == text + ("\"" + QuotedBody(s, false, out).value.1) && Spells(text, v)
    ensures QuotedBody(s, false, out).value.0 == out + v
    decreases |s|
  {
    if s[0] == '"' {
      text, v := "", "";
      assert s == "" + ("\"" + s[1..]) && out + "" == out;
    } else if s[0] == '\\' {
      var c := Unescaped(s[1]);
      assert s[1..][1..] == s[2..];
      var text1, v1 := ReadIsSpelled(s[2..], out + [c]);
      text, v := s[..2] + text1, [c] + v1;
      assert text[2..] == text1 && v[1..] == v1 && s == s[..2] + s[2..];
      assert out + [c] + v1 == out + v;
    } else {
      var text1, v1 := ReadIsSpelled(s[1..], out + [s[0]]);
      text, v := [s[0]] + text1, [s[0]] + v1;
      assert text[1..] == text1 && v[1..] == v1 && s == [s[0]] + s[1..];
      assert out + [s[0]] + v1 == out + v;
    }
  }

  /** The quoted strings accepted are exactly those: a quote, a text that spells the value, and a quote. */
  lemma QuotedIff(s: string, v: string, rest: string)
    ensures ParseQuoted(s) == Some((v, rest)) <==> exists text :: s == "\"" + (text + ("\"" + rest)) && Spells(text, v)
  {
    if ParseQuoted(s) == Some((v, rest)) {
      var text, w := ReadIsSpelled(s[1..], "");
      assert s == "\"" + s[1..] && "" + w == w;
    }
    if text :| s == "\"" + (text + ("\"" + rest)) && Spells(text, v) {
      assert s[1..] == text + ("\"" + rest) && "" + v == v;
      SpelledIsRead(text, v, rest, "");
    }
  }

  lemma {:induction false} QuotedBodyReads(v: string, rest: string, out: string)
    ensures QuotedBody(EscapeEach(v) + ("\"" + rest), false, out) == Some((out + v, rest))
    decreases |v|
  {
    if v == "" {
      assert EscapeEach(v) + ("\"" + rest) == "\"" + rest;
      assert ("\"" + rest)[1..] == rest && out + v == out;
    } else {
      var tail := EscapeEach(v[1..]) + ("\"" + rest);
      assert EscapeEach(v) + ("\"" + rest) == EscapeChar(v[0]) + tail;
      QuotedStep(v[0], tail, out);
      QuotedBodyReads(v[1..], rest, out + [v[0]]);
      assert (out + [v[0]]) + v[1..] == out + v;
    }
  }

  /** Main theorem: quoted strings round-trip for every string and whatever follows. */
  lemma QuotedStringRoundTrips()
    ensures RoundTrips(QuotedString(), (v: string) => true, (rest: string) => true)
    ensures NonGrowing(QuotedString().parse)
  {
    var c := QuotedString();
    forall v, rest
      ensures c.parse(c.render(v) + rest) == Some((v, rest))
    {
      EscapeIsPerCharacter(v);
      QuotedBodyReads(v, rest, "");
      assert (c.render(v) + rest)[1..] == EscapeEach(v) + ("\"" + rest);
      assert "" + v == v;
    }
  }

  // ------------------------------------------------------------------
  // Integers
  // ------------------------------------------------------------------

  function SignedInt(s: string): (r: Option<(int, string)>)
    ensures r.Some? ==> |r.value.1| < |s|
  {
    var start := if s != "" && s[0] in {'-', '+'} then 1 else 0;
    var n := DigitRun(s[start..]);
    if n == 0 then None
    else
      match ParseI64(s[..start + n])
      case None => None
      case Some(v) => Some((v, s[start + n..]))
  }

  method RunSignedInt(s: string) returns (r: Option<(int, string)>)
    ensures r == SignedInt(s)
  {
    var idx := 0;
    if s != "" && s[0] in {'-', '+'} {
      idx := 1;
    }
    var start := idx;
    while idx < |s| && IsDigit(s[idx])
      invariant start <= idx <= |s|
      invariant start + DigitRun(s[start..]) == idx + DigitRun(s[idx..])
    {
      assert s[idx..][1..] == s[idx + 1..];
      idx := idx + 1;
    }
    if idx == start {
      return None;
    }
    match ParseI64(s[..idx]) {
      case None => r := None;
      case Some(v) => r := Some((v, s[idx..]));
    }
  }

  function IntCodec(): Codec<int> {
    Codec((s: string) => SignedInt(s), (n: int) => PrintInt(n))
  }

  predicate StartsWithDigit(s: string) {
    s != "" && IsDigit(s[0])
  }

  lemma SignedIntReads(n: int, rest: string)
    requires IsI64(n) && !StartsWithDigit(rest)
    ensures SignedInt(PrintInt(n) + rest) == Some((n, rest))
  {
    var sign, digits := if n < 0 then "-" else "", if n < 0 then Digits(-n) else Digits(n);
    assert PrintInt(n) == sign + digits;
    SignedIntParts(sign, digits, rest);
    ParseOfPrint(n);
  }

  lemma SignedIntParts(sign: string, digits: string, rest: string)
    requires sign in {"", "+", "-"} && digits != "" && AllDigits(digits) && !StartsWithDigit(rest)
    ensures SignedInt(sign + digits + rest) ==
      if ParseI64(sign + digits).None? then None else Some((ParseI64(sign + digits).value, rest))
  {
    var s := sign + digits + rest;
    assert s[0] == if sign == "" then digits[0] else sign[0];
    assert s[|sign|..] == digits + rest;
    DigitRunOf(digits, rest);
    assert s[..|sign| + |digits|] == sign + digits && s[|sign| + |digits|..] == rest;
  }

  /** The text of an integer that reads as `n`, with `rest` after it. */
  ghost predicate ReadsInt(s: string, sign: string, digits: string, rest: string, n: int) {
    && sign in {"", "+", "-"} && digits != "" && AllDigits(digits) && !StartsWithDigit(rest)
    && s == sign + digits + rest
    && n == (if sign == "-" then -(NatValue(digits) as int) else NatValue(digits)) && IsI64(n)
  }

  function SignOf(s: string): string {
    if s == "" then "" else if s[0] == '-' then "-" else if s[0] == '+' then "+" else ""
  }

  lemma SignIsPrefix(s: string)
    ensures SignOf(s) <= s && SignOf(s) in {"", "+", "-"}
  {
  }

  lemma CutDigits(body: string) returns (digits: string, rest: string)
    ensures |digits| == DigitRun(body) && AllDigits(digits) && !StartsWithDigit(rest)
    ensures body == digits + rest
    ensures forall head: string :: head + body == head + digits + rest
  {
    var n := DigitRun(body);
    digits, rest := body[..n], body[n..];
  }

  lemma CutInt(s: string) returns (sign: string, digits: string, rest: string)
    requires DigitRun(s[|SignOf(s)|..]) > 0
    ensures sign in {"", "+", "-"} && digits != "" && AllDigits(digits) && !StartsWithDigit(rest)
    ensures s == sign + digits + rest
  {
    SignIsPrefix(s);
    sign := SignOf(s);
    digits, rest := CutDigits(s[|sign|..]);
    assert s == sign + s[|sign|..];
  }

  lemma SignedIntCuts(s: string) returns (sign: string, digits: string, rest: string)
    requires SignedInt(s).Some?
    ensures ReadsInt(s, sign, digits, rest, SignedInt(s).value.0) && SignedInt(s).value.1 == rest
  {
    sign, digits, rest := CutInt(s);
    SignedIntParts(sign, digits, rest);
    DecimalValue(sign, digits);
  }

  lemma IntTextReads(s: string, sign: string, digits: string, rest: string, n: int)
    requires ReadsInt(s, sign, digits, rest, n)
    ensures SignedInt(s) == Some((n, rest))
  {
    SignedIntParts(sign, digits, rest);
    DecimalValue(sign, digits);
  }

  /** The integer parser takes an optional sign and all the digits that follow, and fails outside 64 bits. */
  lemma SignedIntIff(s: string, n: int, rest: string)
    ensures SignedInt(s) == Some((n, rest)) <==> exists sign, digits :: ReadsInt(s, sign, digits, rest, n)
  {
    if SignedInt(s) == Some((n, rest)) {
      var sign, digits, rest1 := SignedIntCuts(s);
    }
    if sign, digits :| ReadsInt(s, sign, digits, rest, n) {
      IntTextReads(s, sign, digits, rest, n);
    }
  }

  /** Main theorem: 64-bit integers round-trip unless a digit follows. */
  lemma IntCodecRoundTrips()
    ensures RoundTrips(IntCodec(), (n: int) => IsI64(n), (rest: string) => !StartsWithDigit(rest))
    ensures NonGrowing(IntCodec().parse)
  {
    forall n, rest | IsI64(n) && !StartsWithDigit(rest)
      ensures IntCodec().parse(IntCodec().render(n) + rest) == Some((n, rest))
    {
      SignedIntReads(n, rest);
    }
  }

  /** A pair of integers reads its two parts one after the other. */
  lemma IntPairReads(s: string)
    ensures var first := SignedInt(s);
            Pair(IntCodec(), IntCodec()).parse(s) ==
              if first.None? then None
              else
                var second := SignedInt(first.value.1);
                if second.None? then None else Some(((first.value.0, second.value.0), second.value.1))
  {
  }

  /** A number that is not negative runs into the number before it. */
  lemma DigitsMerge(a: int, b: int, rest: string)
    requires b >= 0 && !StartsWithDigit(rest)
    ensures var r := SignedInt(PrintInt(a) + PrintInt(b) + rest); r.Some? ==> r.value.1 == rest
  {
    if a < 0 {
      DigitsJoin("-", Digits(-a), Digits(b), rest);
    } else {
      DigitsJoin("", Digits(a), Digits(b), rest);
      assert "" + Digits(a) == Digits(a);
    }
  }

  lemma DigitsJoin(sign: string, a: string, b: string, rest: string)
    requires sign in {"", "-"} && a != "" && AllDigits(a) && AllDigits(b) && !StartsWithDigit(rest)
    ensures var r := SignedInt(sign + a + b + rest); r.Some? ==> r.value.1 == rest
  {
    assert sign + a + b + rest == sign + (a + b) + rest;
    SignedIntParts(sign, a + b, rest);
  }

  lemma NegativeStandsApart(a: int, b: int, rest: string)
    requires IsI64(a) && IsI64(b) && b < 0 && !StartsWithDigit(rest)
    ensures SignedInt(PrintInt(a) + PrintInt(b) + rest) == Some((a, PrintInt(b) + rest))
    ensures SignedInt(PrintInt(b) + rest) == Some((b, rest))
  {
    assert PrintInt(a) + PrintInt(b) + rest == PrintInt(a) + (PrintInt(b) + rest);
    assert (PrintInt(b) + rest)[0] == PrintInt(b)[0] == '-';
    SignedIntReads(a, PrintInt(b) + rest);
    SignedIntReads(b, rest);
  }

  lemma IntPairRenders(a: int, b: int)
    ensures Pair(IntCodec(), IntCodec()).render((a, b)) == PrintInt(a) + PrintInt(b)
  {
  }

  /** Two integers in a row come back exactly when the second is negative: otherwise its digits join the first. */
  lemma IntPairRoundTripsIff(a: int, b: int, rest: string)
    requires IsI64(a) && IsI64(b) && !StartsWithDigit(rest)
    ensures var c := Pair(IntCodec(), IntCodec());
            c.parse(c.render((a, b)) + rest) == Some(((a, b), rest)) <==> b < 0
  {
    IntPairRenders(a, b);
    IntPairParses(PrintInt(a) + PrintInt(b) + rest, a, b, rest);
    if b < 0 {
      NegativeStandsApart(a, b, rest);
    } else {
      DigitsMerge(a, b, rest);
    }
  }

  lemma IntPairParses(s: string, a: int, b: int, rest: string)
    ensures Pair(IntCodec(), IntCodec()).parse(s) == Some(((a, b), rest)) <==>
            SignedInt(s).Some? && SignedInt(s).value.0 == a && SignedInt(SignedInt(s).value.1) == Some((b, rest))
  {
    IntPairReads(s);
  }

  /** Put together: nonempty lists of string-integer pairs round-trip unless a digit or a comma follows. */
  lemma PairListRoundTrips(items: seq<(string, int)>, rest: string)
    requires items != [] && forall k :: 0 <= k < |items| ==> IsI64(items[k].1)
    requires !StartsWithDigit(rest) && !StartsWithComma(rest)
    ensures NonGrowing(Pair(QuotedString(), IntCodec()).parse)
    ensures var c := ListOf(Pair(QuotedString(), IntCodec()));
            c.parse(c.render(items) + rest) == Some((items, rest))
  {
    var pair := Pair(QuotedString(), IntCodec());
    QuotedStringRoundTrips();
    IntCodecRoundTrips();
    PairRoundTrips(QuotedString(), IntCodec(), v => true, n => IsI64(n), r => true, r => !StartsWithDigit(r));
    PairNonGrowing(QuotedString(), IntCodec());
    var domain := (p: (string, int)) => true && IsI64(p.1);
    assert RoundTrips(pair, domain, r => !StartsWithDigit(r));
    ListRoundTrips(pair, domain, r => !StartsWithDigit(r));
  }

  lemma PairNonGrowing<A(!new), B(!new)>(left: Codec<A>, right: Codec<B>)
    requires NonGrowing(left.parse) && NonGrowing(right.parse)
    ensures NonGrowing(Pair(left, right).parse)
  {
    forall s | Pair(left, right).parse(s).Some?
      ensures |Pair(left, right).parse(s).value.1| <= |s|
    {
      assert |left.parse(s).value.1| <= |s|;
      assert right.parse(left.parse(s).value.1).Some?;
    }
  }
}
