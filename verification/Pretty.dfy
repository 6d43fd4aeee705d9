/** Pretty-printing documents and their layout laws. */
module Pretty {
  import opened Options
  import opened Text

  datatype Doc =
    | Nil
    | Literal(text: string)
    | Line
    | Break
    | Cat(left: Doc, right: Doc)
    | Nest(spaces: nat, inner: Doc)
    | Group(body: Doc)

  datatype Mode = Flat | Broken

  /** A page width in bytes; the flat trial of a group is made without a limit. */
  datatype Width = Bounded(bytes: nat) | Unbounded

  function Utf8Length(c: char): nat {
    var n := c as int;
    if n < 0x80 then 1 else if n < 0x800 then 2 else if n < 0x10000 then 3 else 4
  }

  function ByteLength(s: string): nat {
    if s == "" then 0 else Utf8Length(s[0]) + ByteLength(s[1..])
  }

  predicate Within(s: string, width: Width) {
    width.Unbounded? || ByteLength(s) <= width.bytes
  }

  function Spaces(n: nat): string {
    if n == 0 then "" else " " + Spaces(n - 1)
  }

  function NewLine(indent: nat): string {
    "\n" + Spaces(indent)
  }

  predicate OneLine(s: string) {
    Count(s, '\n') == 0
  }

  function Render(doc: Doc, width: Width, indent: nat, mode: Mode): string {
    match doc
    case Nil => ""
    case Literal(text) => text
    case Line => NewLine(indent)
    case Break => if mode == Flat then " " else NewLine(indent)
    case Cat(left, right) => Render(left, width, indent, mode) + Render(right, width, indent, mode)
    case Nest(spaces, inner) => Render(inner, width, indent + spaces, mode)
    case Group(body) =>
      var flat := Render(body, Unbounded, indent, Flat);
      if OneLine(flat) && Within(flat, width) then flat else Render(body, width, indent, Broken)
  }

  /** The output buffer that rendering appends to. */
  class Output {
    var text: string

    constructor ()
      ensures text == ""
    {
      text := "";
    }

    method Append(s: string)
      modifies this
      ensures text == old(text) + s
    {
      text := text + s;
    }
  }

  method RenderImpl(doc: Doc, width: Width, indent: nat, mode: Mode, out: Output)
    modifies out
    ensures out.text == old(out.text) + Render(doc, width, indent, mode)
    decreases doc
  {
    match doc {
      case Nil =>
      case Literal(text) => out.Append(text);
      case Line => out.Append(NewLine(indent));
      case Break => out.Append(if mode == Flat then " " else NewLine(indent));
      case Cat(left, right) =>
        RenderImpl(left, width, indent, mode, out);
        RenderImpl(right, width, indent, mode, out);
      case Nest(spaces, inner) => RenderImpl(inner, width, indent + spaces, mode, out);
      case Group(body) =>
        var flat := new Output();
        RenderImpl(body, Unbounded, indent, Flat, flat);
        assert flat.text == Render(body, Unbounded, indent, Flat);
        if OneLine(flat.text) && Within(flat.text, width) {
          out.Append(flat.text);
        } else {
          RenderImpl(body, width, indent, Broken, out);
        }
    }
  }

  // ------------------------------------------------------------------
  // Widening the page
  // ------------------------------------------------------------------

  ghost predicate AtMost(a: Width, b: Width) {
    b.Unbounded? || (a.Bounded? && a.bytes <= b.bytes)
  }

  /** A wider page never has more line breaks. */
  lemma {:induction false} WiderHasFewerBreaks(doc: Doc, narrow: Width, wide: Width, indent: nat, mode: Mode)
    requires AtMost(narrow, wide)
    ensures Count(Render(doc, wide, indent, mode), '\n') <= Count(Render(doc, narrow, indent, mode), '\n')
  {
    match doc
    case Cat(left, right) =>
      WiderHasFewerBreaks(left, narrow, wide, indent, mode);
      WiderHasFewerBreaks(right, narrow, wide, indent, mode);
      CountConcat(Render(left, wide, indent, mode), Render(right, wide, indent, mode), '\n');
      CountConcat(Render(left, narrow, indent, mode), Render(right, narrow, indent, mode), '\n');
    case Nest(spaces, inner) => WiderHasFewerBreaks(inner, narrow, wide, indent + spaces, mode);
    case Group(body) => WiderHasFewerBreaks(body, narrow, wide, indent, Broken);
    case _ =>
  }

  // ------------------------------------------------------------------
  // Grouping twice
  // ------------------------------------------------------------------

  /** What needs several lines flat needs several lines broken. */
  lemma {:induction false} FlatBreaksStay(doc: Doc, width: Width, indent: nat)
    requires !OneLine(Render(doc, Unbounded, indent, Flat))
    ensures !OneLine(Render(doc, width, indent, Broken))
  {
    match doc
    case Cat(left, right) =>
      CountConcat(Render(left, Unbounded, indent, Flat), Render(right, Unbounded, indent, Flat), '\n');
      CountConcat(Render(left, width, indent, Broken), Render(right, width, indent, Broken), '\n');
      if OneLine(Render(left, Unbounded, indent, Flat)) {
        FlatBreaksStay(right, width, indent);
      } else {
        FlatBreaksStay(left, width, indent);
      }
    case Nest(spaces, inner) => FlatBreaksStay(inner, width, indent + spaces);
    case Group(body) => FlatBreaksStay(body, width, indent);
    case _ =>
  }

  /** Grouping a group changes nothing, at every width, indent and mode. */
  lemma GroupTwice(doc: Doc, width: Width, indent: nat, mode: Mode)
    ensures Render(Group(Group(doc)), width, indent, mode) == Render(Group(doc), width, indent, mode)
  {
    if !OneLine(Render(doc, Unbounded, indent, Flat)) {
      FlatBreaksStay(doc, Unbounded, indent);
    }
  }

  // ------------------------------------------------------------------
  // The layout without modes and trials
  // ------------------------------------------------------------------

  /** The bytes of a character, as section 3 of RFC 3629 lays them out. */
  function Utf8(c: char): seq<int> {
    var n := c as int;
    if n < 0x80 then [n]
    else if n < 0x800 then [0xC0 + n / 64, 0x80 + n % 64]
    else if n < 0x10000 then [0xE0 + n / 4096, 0x80 + n / 64 % 64, 0x80 + n % 64]
    else [0xF0 + n / 262144, 0x80 + n / 4096 % 64, 0x80 + n / 64 % 64, 0x80 + n % 64]
  }

  /** The number that a lead byte and its continuation bytes stand for. */
  function FromUtf8(bytes: seq<int>): Option<int> {
    if bytes == [] then None
    else if bytes[0] < 0x80 then (if |bytes| == 1 then Some(bytes[0]) else None)
    else if 0xC0 <= bytes[0] < 0xE0 && |bytes| == 2 then Some((bytes[0] - 0xC0) * 64 + (bytes[1] - 0x80))
    else if 0xE0 <= bytes[0] < 0xF0 && |bytes| == 3 then
      Some(((bytes[0] - 0xE0) * 64 + (bytes[1] - 0x80)) * 64 + (bytes[2] - 0x80))
    else if 0xF0 <= bytes[0] < 0xF8 && |bytes| == 4 then
      Some((((bytes[0] - 0xF0) * 64 + (bytes[1] - 0x80)) * 64 + (bytes[2] - 0x80)) * 64 + (bytes[3] - 0x80))
    else None
  }

  /** A character takes as many bytes as its encoding, which is decodable. */
  lemma Utf8Counts(c: char)
    ensures |Utf8(c)| == Utf8Length(c) && FromUtf8(Utf8(c)) == Some(c as int)
  {
    var n := c as int;
    assert n == n / 64 * 64 + n % 64;
    assert n / 64 == n / 64 / 64 * 64 + n / 64 % 64 && n / 64 / 64 == n / 4096;
    assert n / 4096 == n / 4096 / 64 * 64 + n / 4096 % 64 && n / 4096 / 64 == n / 262144;
  }

  function Utf8Text(s: string): seq<int> {
    if s == "" then [] else Utf8(s[0]) + Utf8Text(s[1..])
  }

  lemma {:induction false} BytesAreCounted(s: string)
    ensures |Utf8Text(s)| == ByteLength(s)
  {
    if s != "" {
      Utf8Counts(s[0]);
      BytesAreCounted(s[1..]);
    }
  }

  /** The document on one line, soft breaks as blanks, unless something in it needs a line feed. */
  function OneLineText(doc: Doc): Option<string> {
    match doc
    case Nil => Some("")
    case Literal(text) => if '\n' in text then None else Some(text)
    case Line => None
    case Break => Some(" ")
    case Cat(left, right) =>
      if OneLineText(left).None? || OneLineText(right).None? then None
      else Some(OneLineText(left).value + OneLineText(right).value)
    case Nest(_, inner) => OneLineText(inner)
    case Group(body) => OneLineText(body)
  }

  /** Every break a new line at the current indentation, but groups on one line where that exists and fits. */
  function Laid(doc: Doc, bytes: nat, indent: nat): string {
    match doc
    case Nil => ""
    case Literal(text) => text
    case Line => "\n" + seq(indent, _ => ' ')
    case Break => "\n" + seq(indent, _ => ' ')
    case Cat(left, right) => Laid(left, bytes, indent) + Laid(right, bytes, indent)
    case Nest(spaces, inner) => Laid(inner, bytes, indent + spaces)
    case Group(body) =>
      var line := OneLineText(body);
      if line.Some? && |Utf8Text(line.value)| <= bytes then line.value else Laid(body, bytes, indent)
  }

  lemma {:induction false} SpacesAreBlanks(n: nat)
    ensures Spaces(n) == seq(n, _ => ' ')
  {
    if n > 0 {
      SpacesAreBlanks(n - 1);
      assert seq(n, _ => ' ') == [' '] + seq(n - 1, _ => ' ');
    }
  }

  /** The flat trial is one line exactly when the document has a one-line text, and then it is that text. */
  lemma {:induction false} FlatIsOneLineText(doc: Doc, indent: nat)
    ensures var flat := Render(doc, Unbounded, indent, Flat);
            if OneLine(flat) then OneLineText(doc) == Some(flat) else OneLineText(doc) == None
  {
    match doc
    case Literal(text) => CountZero(text, '\n');
    case Line => assert NewLine(indent)[0] == '\n';
    case Break => assert " "[1..] == "";
    case Cat(left, right) =>
      FlatIsOneLineText(left, indent);
      FlatIsOneLineText(right, indent);
      CountConcat(Render(left, Unbounded, indent, Flat), Render(right, Unbounded, indent, Flat), '\n');
    case Nest(spaces, inner) => FlatIsOneLineText(inner, indent + spaces);
    case Group(body) =>
      FlatIsOneLineText(body, indent);
      if !OneLine(Render(body, Unbounded, indent, Flat)) {
        FlatBreaksStay(body, Unbounded, indent);
      }
    case Nil =>
  }

  /** Main theorem: rendering, with its modes and flat trials, lays the document out like this at every width. */
  lemma {:induction false} RenderIsLaid(doc: Doc, bytes: nat, indent: nat)
    ensures Render(doc, Bounded(bytes), indent, Broken) == Laid(doc, bytes, indent)
  {
    match doc
    case Line => SpacesAreBlanks(indent);
    case Break => SpacesAreBlanks(indent);
    case Cat(left, right) =>
      RenderIsLaid(left, bytes, indent);
      RenderIsLaid(right, bytes, indent);
    case Nest(spaces, inner) => RenderIsLaid(inner, bytes, indent + spaces);
    case Group(body) =>
      FlatIsOneLineText(body, indent);
      RenderIsLaid(body, bytes, indent);
      BytesAreCounted(Render(body, Unbounded, indent, Flat));
    case _ =>
  }

  // ------------------------------------------------------------------
  // Content
  // ------------------------------------------------------------------

  function Content(doc: Doc): string {
    match doc
    case Literal(text) => text
    case Cat(left, right) => Content(left) + Content(right)
    case Nest(_, inner) => Content(inner)
    case Group(body) => Content(body)
    case _ => ""
  }

  /** The characters that are neither blanks nor line feeds. */
  function Ink(s: string): string {
    if s == "" then "" else (if s[0] in {' ', '\n'} then "" else [s[0]]) + Ink(s[1..])
  }

  lemma {:induction false} InkConcat(a: string, b: string)
    ensures Ink(a + b) == Ink(a) + Ink(b)
  {
    if a == "" {
      assert a + b == b;
    } else {
      assert (a + b)[1..] == a[1..] + b;
      InkConcat(a[1..], b);
    }
  }

  lemma {:induction false} NoInkInSpaces(n: nat)
    ensures Ink(Spaces(n)) == ""
    ensures Ink(NewLine(n)) == ""
  {
    if n > 0 {
      NoInkInSpaces(n - 1);
      assert (" " + Spaces(n - 1))[1..] == Spaces(n - 1);
    }
    assert NewLine(n)[1..] == Spaces(n);
  }

  /** Every rendering shows the same characters in the same order; only blanks and line feeds differ. */
  lemma {:induction false} RenderKeepsContent(doc: Doc, width: Width, indent: nat, mode: Mode)
    ensures Ink(Render(doc, width, indent, mode)) == Ink(Content(doc))
  {
    match doc
    case Line => NoInkInSpaces(indent);
    case Break =>
      NoInkInSpaces(indent);
      assert Ink(" ") == "";
    case Cat(left, right) =>
      RenderKeepsContent(left, width, indent, mode);
      RenderKeepsContent(right, width, indent, mode);
      InkConcat(Render(left, width, indent, mode), Render(right, width, indent, mode));
      InkConcat(Content(left), Content(right));
    case Nest(spaces, inner) => RenderKeepsContent(inner, width, indent + spaces, mode);
    case Group(body) =>
      RenderKeepsContent(body, Unbounded, indent, Flat);
      RenderKeepsContent(body, width, indent, Broken);
    case _ =>
  }

  // ------------------------------------------------------------------
  // Indentation
  // ------------------------------------------------------------------

  predicate Clean(doc: Doc) {
    match doc
    case Literal(text) => OneLine(text)
    case Cat(left, right) => Clean(left) && Clean(right)
    case Nest(_, inner) => Clean(inner)
    case Group(body) => Clean(body)
    case _ => true
  }

  /** Indents every line but the first by `n` more blanks. */
  function Shift(s: string, n: nat): string {
    if s == "" then "" else [s[0]] + (if s[0] == '\n' then Spaces(n) else "") + Shift(s[1..], n)
  }

  lemma {:induction false} ShiftConcat(a: string, b: string, n: nat)
    ensures Shift(a + b, n) == Shift(a, n) + Shift(b, n)
  {
    if a == "" {
      assert a + b == b;
    } else {
      assert (a + b)[1..] == a[1..] + b;
      ShiftConcat(a[1..], b, n);
      var head := [a[0]] + (if a[0] == '\n' then Spaces(n) else "");
      assert head + (Shift(a[1..], n) + Shift(b, n)) == (head + Shift(a[1..], n)) + Shift(b, n);
    }
  }

  lemma {:induction false} ShiftOneLine(s: string, n: nat)
    requires OneLine(s)
    ensures Shift(s, n) == s
  {
    if s != "" {
      ShiftOneLine(s[1..], n);
      assert [s[0]] + "" + s[1..] == s;
    }
  }

  lemma {:induction false} ShiftKeepsBreaks(s: string, n: nat)
    ensures Count(Shift(s, n), '\n') == Count(s, '\n')
  {
    if s != "" {
      ShiftKeepsBreaks(s[1..], n);
      var pad := if s[0] == '\n' then Spaces(n) else "";
      SpacesAreOneLine(n);
      CountConcat([s[0]] + pad, Shift(s[1..], n), '\n');
      CountConcat([s[0]], pad, '\n');
      assert Count([s[0]], '\n') == if s[0] == '\n' then 1 else 0;
    }
  }

  lemma {:induction false} SpacesAreOneLine(n: nat)
    ensures OneLine(Spaces(n))
  {
    if n > 0 {
      SpacesAreOneLine(n - 1);
      assert (" " + Spaces(n - 1))[1..] == Spaces(n - 1);
    }
  }

  lemma {:induction false} SpacesAdd(m: nat, n: nat)
    ensures Spaces(m) + Spaces(n) == Spaces(m + n)
  {
    if m > 0 {
      SpacesAdd(m - 1, n);
    }
  }

  lemma ShiftNewLine(indent: nat, n: nat)
    ensures Shift(NewLine(indent), n) == NewLine(indent + n)
  {
    SpacesAreOneLine(indent);
    ShiftOneLine(Spaces(indent), n);
    SpacesAdd(n, indent);
    assert NewLine(indent)[1..] == Spaces(indent);
    assert ['\n'] + Spaces(n) + Spaces(indent) == "\n" + (Spaces(n) + Spaces(indent));
  }

  /** Nesting shifts every line of the nested document but its first. */
  lemma NestShifts(spaces: nat, inner: Doc, width: Width, indent: nat, mode: Mode)
    requires Clean(inner)
    ensures Render(Nest(spaces, inner), width, indent, mode) == Shift(Render(inner, width, indent, mode), spaces)
  {
    IndentShifts(inner, width, indent, mode, spaces);
  }

  /** Starting deeper only shifts the lines: no group is laid out differently. */
  lemma {:induction false} IndentShifts(doc: Doc, width: Width, indent: nat, mode: Mode, n: nat)
    requires Clean(doc)
    ensures Render(doc, width, indent + n, mode) == Shift(Render(doc, width, indent, mode), n)
  {
    match doc
    case Literal(text) => ShiftOneLine(text, n);
    case Line => ShiftNewLine(indent, n);
    case Break =>
      ShiftNewLine(indent, n);
      ShiftOneLine(" ", n);
    case Cat(left, right) =>
      IndentShifts(left, width, indent, mode, n);
      IndentShifts(right, width, indent, mode, n);
      ShiftConcat(Render(left, width, indent, mode), Render(right, width, indent, mode), n);
    case Nest(spaces, inner) => IndentShifts(inner, width, indent + spaces, mode, n);
    case Group(body) =>
      IndentShifts(body, Unbounded, indent, Flat, n);
      IndentShifts(body, width, indent, Broken, n);
      var flat := Render(body, Unbounded, indent, Flat);
      ShiftKeepsBreaks(flat, n);
      if OneLine(flat) {
        ShiftOneLine(flat, n);
      }
    case Nil =>
  }

  // ------------------------------------------------------------------
  // Filling a line
  // ------------------------------------------------------------------

  /** Documents separated by soft breaks, associated to the left. */
  function Separated(docs: seq<Doc>): Doc
    requires docs != []
  {
    if |docs| == 1 then docs[0] else Cat(Cat(Separated(docs[..|docs| - 1]), Break), docs[|docs| - 1])
  }

  method Fill(docs: seq<Doc>) returns (doc: Doc)
    ensures doc == if docs == [] then Nil else Group(Separated(docs))
  {
    if docs == [] {
      return Nil;
    }
    doc := docs[0];
    for k := 1 to |docs|
      invariant doc == Separated(docs[..k])
    {
      assert docs[..k + 1][..k] == docs[..k];
      doc := Cat(Cat(doc, Break), docs[k]);
    }
    assert docs[..|docs|] == docs;
    doc := Group(doc);
  }

  function Renders(docs: seq<Doc>, width: Width, indent: nat, mode: Mode): seq<string> {
    if docs == [] then []
    else Renders(docs[..|docs| - 1], width, indent, mode) + [Render(docs[|docs| - 1], width, indent, mode)]
  }

  /** The pieces with `sep` between them. */
  function Between(pieces: seq<string>, sep: string): string {
    if pieces == [] then ""
    else if |pieces| == 1 then pieces[0]
    else Between(pieces[..|pieces| - 1], sep) + sep + pieces[|pieces| - 1]
  }

  lemma {:induction false} SeparatedRenders(docs: seq<Doc>, width: Width, indent: nat, mode: Mode)
    requires docs != []
    ensures |Renders(docs, width, indent, mode)| == |docs|
    ensures Render(Separated(docs), width, indent, mode)
         == Between(Renders(docs, width, indent, mode), if mode == Flat then " " else NewLine(indent))
  {
    var init := docs[..|docs| - 1];
    if |docs| > 1 {
      SeparatedRenders(init, width, indent, mode);
      var pieces := Renders(init, width, indent, mode);
      var last := Render(docs[|docs| - 1], width, indent, mode);
      assert (pieces + [last])[..|pieces|] == pieces;
      assert Render(Cat(Separated(init), Break), width, indent, mode)
          == Render(Separated(init), width, indent, mode) + Render(Break, width, indent, mode);
    } else {
      assert Renders(init, width, indent, mode) == [];
    }
  }

  /** Fill is all or nothing: everything on one line with blanks, or every piece on its own line. */
  lemma FillIsOneLineOrMany(docs: seq<Doc>, width: Width, indent: nat)
    requires docs != []
    ensures var flat := Between(Renders(docs, Unbounded, indent, Flat), " ");
            Render(Group(Separated(docs)), width, indent, Broken) ==
              if OneLine(flat) && Within(flat, width) then flat
              else Between(Renders(docs, width, indent, Broken), NewLine(indent))
  {
    SeparatedRenders(docs, Unbounded, indent, Flat);
    SeparatedRenders(docs, width, indent, Broken);
  }
}
