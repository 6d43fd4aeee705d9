/** Parsing path strings into segments, and printing segments back. */
module Paths {
  import opened Options
  import opened Text
  import opened Documents

  function ParseSegment(s: string): Segment {
    if s == "-" then Append
    else
      match ParseUsize(s)
      case Some(i) => Index(i)
      case None => Field(s)
  }

  function PrintSegment(seg: Segment): string {
    match seg
    case Field(name) => name
    case Index(i) => Digits(i)
    case Append => "-"
  }

  function MapParse(parts: seq<string>): Path {
    if parts == [] then [] else [ParseSegment(parts[0])] + MapParse(parts[1..])
  }

  function MapPrint(path: Path): seq<string> {
    if path == [] then [] else [PrintSegment(path[0])] + MapPrint(path[1..])
  }

  /** Undoes the escaping of section 3 of RFC 6901 in two passes. */
  function DecodePointer(s: string): string {
    ReplacePair(ReplacePair(s, '~', '1', "/"), '~', '0', "~")
  }

  function MapDecode(parts: seq<string>): seq<string> {
    if parts == [] then [] else [DecodePointer(parts[0])] + MapDecode(parts[1..])
  }

  function TrimSlashes(s: string): string {
    if s != "" && s[0] == '/' then TrimSlashes(s[1..]) else s
  }

  function ParsePointer(s: string): Path {
    if s == "/" then [] else MapParse(MapDecode(Split(TrimSlashes(s), '/')))
  }

  function ParsePath(s: string): Path {
    if s == "" then []
    else if s[0] == '/' then ParsePointer(s)
    else MapParse(Split(s, '.'))
  }

  function SegmentsToDot(path: Path): string {
    Join(MapPrint(path), '.')
  }

  // ------------------------------------------------------------------
  // One segment
  // ------------------------------------------------------------------

  /** The segment's text reads back as the segment. */
  predicate Printable(seg: Segment) {
    match seg
    case Field(name) => name != "-" && ParseUsize(name).None?
    case Index(i) => IsUsize(i)
    case Append => true
  }

  lemma PrintableIff(seg: Segment)
    ensures Printable(seg) <==> ParseSegment(PrintSegment(seg)) == seg
  {
    match seg
    case Field(name) =>
    case Index(i) =>
      ValueOfDigits(i);
      assert Digits(i)[0] != '+' && Digits(i)[0] != '-';
    case Append =>
  }

  lemma ParsedIsPrintable(s: string)
    ensures Printable(ParseSegment(s))
  {
  }

  /** Parsing normalises a segment's text and never makes it longer. */
  lemma SegmentTextShrinks(s: string)
    ensures |PrintSegment(ParseSegment(s))| <= |s|
  {
    if s != "-" && ParseUsize(s).Some? {
      var body := if s != "" && s[0] == '+' then s[1..] else s;
      DigitsAreShortest(body);
    }
  }

  // ------------------------------------------------------------------
  // Dotted paths
  // ------------------------------------------------------------------

  predicate DotSegment(seg: Segment) {
    Printable(seg) && (seg.Field? ==> '.' !in seg.name)
  }

  /** The segment lists that a dotted path can spell. */
  predicate DotPrintable(path: Path) {
    && (forall k :: 0 <= k < |path| ==> DotSegment(path[k]))
    && path != [Field("")]
    && (path != [] && path[0].Field? && path[0].name != "" ==> path[0].name[0] != '/')
  }

  lemma {:induction false} MapPrintAt(path: Path)
    ensures |MapPrint(path)| == |path|
    ensures forall k :: 0 <= k < |path| ==> MapPrint(path)[k] == PrintSegment(path[k])
  {
    if path != [] {
      MapPrintAt(path[1..]);
    }
  }

  lemma {:induction false} MapParseAt(parts: seq<string>)
    ensures |MapParse(parts)| == |parts|
    ensures forall k :: 0 <= k < |parts| ==> MapParse(parts)[k] == ParseSegment(parts[k])
  {
    if parts != [] {
      MapParseAt(parts[1..]);
    }
  }

  lemma {:induction false} ParseOfPrinted(path: Path)
    ensures MapParse(MapPrint(path)) == path <==> forall k :: 0 <= k < |path| ==> Printable(path[k])
  {
    MapPrintAt(path);
    MapParseAt(MapPrint(path));
    forall k | 0 <= k < |path|
      ensures Printable(path[k]) <==> MapParse(MapPrint(path))[k] == path[k]
    {
      PrintableIff(path[k]);
    }
  }

  lemma DigitsHaveNo(i: nat, c: char)
    requires !IsDigit(c)
    ensures c !in Digits(i)
  {
  }

  lemma DotFreeText(seg: Segment)
    requires DotSegment(seg)
    ensures '.' !in PrintSegment(seg)
  {
    if seg.Index? {
      DigitsHaveNo(seg.index, '.');
    }
  }

  /** The first character of a dotted path is that of its first segment, or the first dot. */
  lemma JoinStart(path: Path)
    requires path != []
    ensures SegmentsToDot(path) == "" <==> path == [Field("")]
    ensures SegmentsToDot(path) != "" ==>
      (SegmentsToDot(path)[0] == '/' <==> path[0].Field? && path[0].name != "" && path[0].name[0] == '/')
  {
    MapPrintAt(path);
    var text := PrintSegment(path[0]);
    assert MapPrint(path)[0] == text;
    if |path| > 1 {
      assert SegmentsToDot(path) == text + ['.'] + Join(MapPrint(path)[1..], '.');
    } else {
      assert path == [path[0]];
    }
    assert path[0].Index? ==> text[0] != '/';
  }

  lemma DotPrintableRoundTrips(path: Path)
    requires DotPrintable(path)
    ensures ParsePath(SegmentsToDot(path)) == path
  {
    if path != [] {
      JoinStart(path);
      MapPrintAt(path);
      forall k | 0 <= k < |path|
        ensures '.' !in MapPrint(path)[k]
      {
        DotFreeText(path[k]);
      }
      SplitOfJoin(MapPrint(path), '.');
      ParseOfPrinted(path);
    }
  }

  /** A path that is read as a pointer comes back shorter. */
  lemma {:induction false} JoinedTextShrinks(parts: seq<string>)
    ensures |Join(MapPrint(MapParse(MapDecode(parts))), '.')| <= |Join(parts, '/')|
  {
    if parts != [] {
      ReplacePairShrinks(parts[0], '~', '1', "/");
      ReplacePairShrinks(ReplacePair(parts[0], '~', '1', "/"), '~', '0', "~");
      SegmentTextShrinks(DecodePointer(parts[0]));
      JoinedTextShrinks(parts[1..]);
      var tail := MapPrint(MapParse(MapDecode(parts[1..])));
      assert MapPrint(MapParse(MapDecode(parts)))[1..] == tail;
      assert MapPrint(MapParse(MapDecode(parts)))[0] == PrintSegment(ParseSegment(DecodePointer(parts[0])));
      MapParseAt(MapDecode(parts[1..]));
      MapPrintAt(MapParse(MapDecode(parts[1..])));
      MapDecodeLength(parts[1..]);
    }
  }

  lemma {:induction false} MapDecodeLength(parts: seq<string>)
    ensures |MapDecode(parts)| == |parts|
    ensures forall k :: 0 <= k < |parts| ==> MapDecode(parts)[k] == DecodePointer(parts[k])
  {
    if parts != [] {
      MapDecodeLength(parts[1..]);
    }
  }

  lemma {:induction false} TrimShrinks(s: string)
    ensures |TrimSlashes(s)| <= |s|
    ensures s != "" && s[0] == '/' ==> |TrimSlashes(s)| < |s|
  {
    if s != "" && s[0] == '/' {
      TrimShrinks(s[1..]);
    }
  }

  lemma RoundTripIsNotAPointer(path: Path)
    requires path != [] && ParsePath(SegmentsToDot(path)) == path
    ensures SegmentsToDot(path) != "" && SegmentsToDot(path)[0] != '/'
  {
    var text := SegmentsToDot(path);
    if text != "" && text[0] == '/' {
      var parts := Split(TrimSlashes(text), '/');
      TrimShrinks(text);
      JoinOfSplit(TrimSlashes(text), '/');
      JoinedTextShrinks(parts);
    }
  }

  /** Main theorem: a segment list survives printing and parsing exactly when it is dot-printable. */
  lemma DotRoundTripIff(path: Path)
    ensures ParsePath(SegmentsToDot(path)) == path <==> DotPrintable(path)
  {
    if DotPrintable(path) {
      DotPrintableRoundTrips(path);
    } else if ParsePath(SegmentsToDot(path)) == path {
      RoundTripIsNotAPointer(path);
      JoinStart(path);
      RoundTripIsDotFree(path);
    }
  }

  lemma RoundTripIsDotFree(path: Path)
    requires path != [] && MapParse(Split(SegmentsToDot(path), '.')) == path
    ensures forall k :: 0 <= k < |path| ==> DotSegment(path[k])
  {
    var text, parts := SegmentsToDot(path), Split(SegmentsToDot(path), '.');
    MapPrintAt(path);
    MapParseAt(parts);
    SplitCounts(text, '.');
    JoinCounts(MapPrint(path), '.');
    SplitOfJoin(MapPrint(path), '.');
    ParseOfPrinted(path);
  }

  // ------------------------------------------------------------------
  // JSON pointers
  // ------------------------------------------------------------------

  /** The escaping of section 3 of RFC 6901. */
  function EncodePointer(s: string): string {
    if s == "" then ""
    else (if s[0] == '~' then "~0" else if s[0] == '/' then "~1" else [s[0]]) + EncodePointer(s[1..])
  }

  /** Only tildes escaped: the text between the two decoding passes. */
  function EncodeTildes(s: string): string {
    if s == "" then "" else (if s[0] == '~' then "~0" else [s[0]]) + EncodeTildes(s[1..])
  }

  /** The first pass leaves an escaped tilde alone and turns an escaped slash back. */
  lemma FirstPassStep(rest: string, c: char)
    ensures ReplacePair(['~', '0'] + rest, '~', '1', "/") == ['~', '0'] + ReplacePair(rest, '~', '1', "/")
    ensures ReplacePair(['~', '1'] + rest, '~', '1', "/") == ['/'] + ReplacePair(rest, '~', '1', "/")
    ensures c != '~' ==> ReplacePair([c] + rest, '~', '1', "/") == [c] + ReplacePair(rest, '~', '1', "/")
  {
    assert (['~', '0'] + rest)[1..] == ['0'] + rest && (['0'] + rest)[1..] == rest;
    assert (['~', '1'] + rest)[2..] == rest;
    assert ([c] + rest)[1..] == rest;
  }

  lemma {:induction false} FirstPass(s: string)
    ensures ReplacePair(EncodePointer(s), '~', '1', "/") == EncodeTildes(s)
  {
    if s != "" {
      FirstPass(s[1..]);
      FirstPassStep(EncodePointer(s[1..]), s[0]);
    }
  }

  lemma {:induction false} SecondPass(s: string)
    ensures ReplacePair(EncodeTildes(s), '~', '0', "~") == s
  {
    if s != "" {
      SecondPass(s[1..]);
      var rest := EncodeTildes(s[1..]);
      if s[0] == '~' {
        assert EncodeTildes(s)[2..] == rest;
      } else {
        assert EncodeTildes(s)[1..] == rest;
      }
    }
  }

  /** Decoding inverts the escaping, for every string. */
  lemma DecodeOfEncode(s: string)
    ensures DecodePointer(EncodePointer(s)) == s
  {
    FirstPass(s);
    SecondPass(s);
  }

  lemma {:induction false} EncodedHasNoSlash(s: string)
    ensures '/' !in EncodePointer(s)
    ensures EncodePointer(s) == "" <==> s == ""
  {
    if s != "" {
      EncodedHasNoSlash(s[1..]);
    }
  }

  function MapEncode(path: Path): seq<string> {
    if path == [] then [] else [EncodePointer(PrintSegment(path[0]))] + MapEncode(path[1..])
  }

  /** The pointer that spells a segment list. */
  function PrintPointer(path: Path): string {
    if path == [] then "" else "/" + Join(MapEncode(path), '/')
  }

  lemma {:induction false} DecodeOfMapEncode(path: Path)
    ensures MapDecode(MapEncode(path)) == MapPrint(path)
    ensures |MapEncode(path)| == |path|
    ensures forall k :: 0 <= k < |path| ==> '/' !in MapEncode(path)[k]
  {
    if path != [] {
      DecodeOfMapEncode(path[1..]);
      DecodeOfEncode(PrintSegment(path[0]));
      EncodedHasNoSlash(PrintSegment(path[0]));
    }
  }

  lemma PointerRoundTrips(path: Path)
    requires forall k :: 0 <= k < |path| ==> Printable(path[k])
    requires path != [] ==> path[0] != Field("")
    ensures ParsePath(PrintPointer(path)) == path
  {
    if path != [] {
      var texts := MapEncode(path);
      DecodeOfMapEncode(path);
      var first := EncodePointer(PrintSegment(path[0]));
      EncodedHasNoSlash(PrintSegment(path[0]));
      assert PrintSegment(path[0]) != "";
      assert texts[0] == first && first[0] in first;
      var body := Join(texts, '/');
      assert body[0] == first[0];
      assert PrintPointer(path)[1..] == body;
      assert TrimSlashes(PrintPointer(path)) == TrimSlashes(body) == body;
      SplitOfJoin(texts, '/');
      ParseOfPrinted(path);
    }
  }

  lemma {:induction false} TrimKeepsFewer(s: string)
    ensures Count(TrimSlashes(s), '/') <= Count(s, '/')
  {
    if s != "" && s[0] == '/' {
      TrimKeepsFewer(s[1..]);
    }
  }

  /** An empty first name is lost with the slashes before it. */
  lemma EmptyFirstNameIsLost(path: Path)
    requires path != [] && path[0] == Field("")
    ensures |ParsePath(PrintPointer(path))| < |path|
  {
    if |path| > 1 {
      var rest := Join(MapEncode(path[1..]), '/');
      EmptyHeadPrints(path);
      DoubleSlashTrims(rest);
      EncodedCount(path[1..]);
      ParsedCount(PrintPointer(path), rest);
    } else {
      assert MapEncode(path[1..]) == [];
      assert PrintPointer(path) == "/";
    }
  }

  lemma EmptyHeadPrints(path: Path)
    requires |path| > 1 && path[0] == Field("")
    ensures PrintPointer(path) == "/" + (['/'] + Join(MapEncode(path[1..]), '/'))
  {
    DecodeOfMapEncode(path[1..]);
    assert EncodePointer(PrintSegment(path[0])) == "";
    JoinEmptyHead(MapEncode(path[1..]));
  }

  lemma JoinEmptyHead(texts: seq<string>)
    requires texts != []
    ensures Join([""] + texts, '/') == ['/'] + Join(texts, '/')
  {
    assert ([""] + texts)[1..] == texts;
  }

  lemma EncodedCount(path: Path)
    requires path != []
    ensures Count(Join(MapEncode(path), '/'), '/') + 1 == |path|
  {
    DecodeOfMapEncode(path);
    SplitOfJoin(MapEncode(path), '/');
    SplitCounts(Join(MapEncode(path), '/'), '/');
  }

  lemma DoubleSlashTrims(rest: string)
    ensures TrimSlashes("/" + (['/'] + rest)) == TrimSlashes(rest)
  {
    assert ("/" + (['/'] + rest))[1..] == ['/'] + rest && (['/'] + rest)[1..] == rest;
  }

  lemma ParsedCount(pointer: string, rest: string)
    requires |pointer| > 1 && pointer[0] == '/' && TrimSlashes(pointer) == TrimSlashes(rest)
    ensures |ParsePath(pointer)| <= Count(rest, '/') + 1
  {
    TrimKeepsFewer(rest);
    var parts := Split(TrimSlashes(rest), '/');
    SplitCounts(TrimSlashes(rest), '/');
    MapDecodeLength(parts);
    MapParseAt(MapDecode(parts));
  }

  /** Every segment that parsing gives is printable. */
  lemma ParsedPathIsPrintable(s: string)
    ensures forall k :: 0 <= k < |ParsePath(s)| ==> Printable(ParsePath(s)[k])
  {
    if s != "" {
      var parts := if s[0] == '/' then MapDecode(Split(TrimSlashes(s), '/')) else Split(s, '.');
      MapParseAt(parts);
      forall k | 0 <= k < |MapParse(parts)|
        ensures Printable(MapParse(parts)[k])
      {
        ParsedIsPrintable(parts[k]);
      }
    }
  }

  /**
    Main theorem: a segment list comes back from its pointer exactly when all its
    segments are printable and its first name is not empty: all leading slashes are trimmed.
   */
  lemma PointerRoundTripIff(path: Path)
    ensures ParsePath(PrintPointer(path)) == path <==>
            (forall k :: 0 <= k < |path| ==> Printable(path[k])) && (path == [] || path[0] != Field(""))
  {
    if ParsePath(PrintPointer(path)) == path {
      ParsedPathIsPrintable(PrintPointer(path));
      if path != [] && path[0] == Field("") {
        EmptyFirstNameIsLost(path);
      }
    } else if forall k :: 0 <= k < |path| ==> Printable(path[k]) {
      if path == [] || path[0] != Field("") {
        PointerRoundTrips(path);
      }
    }
  }
}
