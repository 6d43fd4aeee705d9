/**
  String operations of the standard library that several components share:

  - white space and trimming,
  - searching, and the lines of a text, which come back as they were written,
  - splitting at a character and joining, which undo each other,
  - counting a character,
  - replacing a character, and replacing a pair of characters, in one pass,
  - decimal digits: printing a number and reading it back,
  - the integer readers, which take a sign and refuse what does not fit.

  The readers follow Rust: an unsigned index and a signed 64-bit integer may
  both start with a plus sign.
 */
module Text {
  import opened Options

  // ------------------------------------------------------------------
  // White space
  // ------------------------------------------------------------------

  /** Unicode white space, which is what `trim_start` removes. */
  predicate IsSpace(c: char) {
    var n := c as int;
    || 0x09 <= n <= 0x0D || n == 0x20 || n == 0x85 || n == 0xA0 || n == 0x1680
    || 0x2000 <= n <= 0x200A || n in {0x2028, 0x2029, 0x202F, 0x205F, 0x3000}
  }

  /** The twenty-five characters that Unicode lists as white space. */
  lemma SpacesAreListed(c: char)
    ensures IsSpace(c) <==> c as int in {
      9, 10, 11, 12, 13, 32, 133, 160, 5760, 8192, 8193, 8194, 8195, 8196, 8197, 8198, 8199, 8200, 8201, 8202,
      8232, 8233, 8239, 8287, 12288}
  {
  }

  function TrimStart(s: string): (r: string)
    ensures |r| <= |s|
    ensures r != "" ==> !IsSpace(r[0])
  {
    if s != "" && IsSpace(s[0]) then TrimStart(s[1..]) else s
  }

  predicate AllSpace(s: string) {
    forall k :: 0 <= k < |s| ==> IsSpace(s[k])
  }

  lemma {:induction false} TrimSpace(space: string, k: string)
    requires AllSpace(space)
    ensures TrimStart(space + k) == TrimStart(k)
  {
    if space == "" {
      assert space + k == k;
    } else {
      assert (space + k)[1..] == space[1..] + k;
      TrimSpace(space[1..], k);
    }
  }

  lemma TrimSolid(k: string)
    requires k == "" || !IsSpace(k[0])
    ensures TrimStart(k) == k
  {
  }

  lemma {:induction false} TrimSplits(s: string) returns (space: string)
    ensures AllSpace(space) && s == space + TrimStart(s)
  {
    if s != "" && IsSpace(s[0]) {
      var tail := TrimSplits(s[1..]);
      space := [s[0]] + tail;
    } else {
      space := "";
    }
  }

  lemma {:induction false} TrimAll(space: string)
    ensures TrimStart(space) == "" <==> AllSpace(space)
  {
    if space != "" && IsSpace(space[0]) {
      TrimAll(space[1..]);
      assert AllSpace(space) <==> AllSpace(space[1..]) by {
        assert forall k :: 0 <= k < |space[1..]| ==> space[1..][k] == space[k + 1];
        assert AllSpace(space[1..]) ==> forall k :: 1 <= k < |space| ==> space[k] == space[1..][k - 1];
      }
    }
  }

  // ------------------------------------------------------------------
  // Searching and lines
  // ------------------------------------------------------------------

  /** The position of the first `c`, or the length. */
  function Find(s: string, c: char): (p: nat)
    ensures p <= |s|
  {
    if s == "" || s[0] == c then 0 else 1 + Find(s[1..], c)
  }

  lemma {:induction false} FindFirst(s: string, c: char)
    ensures Find(s, c) < |s| ==> s[Find(s, c)] == c
    ensures forall k :: 0 <= k < Find(s, c) ==> s[k] != c
  {
    if s != "" && s[0] != c {
      FindFirst(s[1..], c);
      forall k | 0 <= k < Find(s, c)
        ensures s[k] != c
      {
        assert k > 0 ==> s[k] == s[1..][k - 1];
      }
    }
  }

  lemma {:induction false} FindIs(s: string, c: char, p: nat)
    requires p < |s| && s[p] == c && forall k :: 0 <= k < p ==> s[k] != c
    ensures Find(s, c) == p
  {
    if p > 0 {
      FindIs(s[1..], c, p - 1);
    }
  }

  function WithoutReturn(line: string): string {
    if line != "" && line[|line| - 1] == '\r' then line[..|line| - 1] else line
  }

  /** The lines of a text, without their ends; what follows the last line feed counts if it is not empty. */
  function Lines(text: string): seq<string>
    decreases |text|
  {
    if text == "" then []
    else
      var p := Find(text, '\n');
      if p == |text| then [text] else [WithoutReturn(text[..p])] + Lines(text[p + 1..])
  }

  function Written(lines: seq<string>): string {
    if lines == [] then "" else lines[0] + "\n" + Written(lines[1..])
  }

  /** A text that stays one line when it is written as one. */
  predicate IsLine(s: string) {
    '\n' !in s && (s != "" ==> s[|s| - 1] != '\r')
  }

  /** Lines written come back when they are read. */
  lemma {:induction false} LinesOfWritten(lines: seq<string>)
    requires forall k :: 0 <= k < |lines| ==> IsLine(lines[k])
    ensures Lines(Written(lines)) == lines
  {
    if lines != [] {
      FirstLine(lines[0], Written(lines[1..]));
      LinesOfWritten(lines[1..]);
    }
  }

  lemma FirstLine(line: string, rest: string)
    requires IsLine(line)
    ensures Lines(line + "\n" + rest) == [line] + Lines(rest)
  {
    var text := line + "\n" + rest;
    assert text[..|line|] == line && text[|line|] == '\n' && text[|line| + 1..] == rest;
    FindIs(text, '\n', |line|);
  }

  /** A line may also end in a carriage return and a line feed. */
  lemma ReturnedLine(line: string, rest: string)
    requires '\n' !in line
    ensures Lines(line + "\r\n" + rest) == [line] + Lines(rest)
  {
    var text, ended := line + "\r\n" + rest, line + "\r";
    assert "\r\n" == "\r" + "\n";
    assert text == ended + "\n" + rest;
    assert text[..|ended|] == ended && text[|ended|] == '\n' && text[|ended| + 1..] == rest;
    assert ended[..|line|] == line;
    FindIs(text, '\n', |ended|);
  }

  /** A last line without an end counts. */
  lemma UnendedLine(line: string)
    requires line != "" && '\n' !in line
    ensures Lines(line) == [line]
  {
    FindFirst(line, '\n');
  }

  lemma {:induction false} WrittenOneMore(lines: seq<string>, line: string)
    ensures Written(lines + [line]) == Written(lines) + line + "\n"
  {
    if lines == [] {
      assert ([] + [line])[1..] == [];
    } else {
      WrittenOneMore(lines[1..], line);
      assert (lines + [line])[1..] == lines[1..] + [line];
    }
  }

  // ------------------------------------------------------------------
  // Split and join
  // ------------------------------------------------------------------

  function Split(s: string, c: char): (r: seq<string>)
    ensures r != []
  {
    if s == "" then [""]
    else
      var rest := Split(s[1..], c);
      if s[0] == c then [""] + rest else [[s[0]] + rest[0]] + rest[1..]
  }

  function Join(parts: seq<string>, c: char): string {
    if parts == [] then ""
    else if |parts| == 1 then parts[0]
    else parts[0] + [c] + Join(parts[1..], c)
  }

  lemma {:induction false} JoinOfSplit(s: string, c: char)
    ensures Join(Split(s, c), c) == s
    ensures forall k :: 0 <= k < |Split(s, c)| ==> c !in Split(s, c)[k]
  {
    if s != "" {
      JoinOfSplit(s[1..], c);
      var rest := Split(s[1..], c);
      if s[0] == c {
        assert ([""] + rest)[1..] == rest;
      } else {
        var parts := [[s[0]] + rest[0]] + rest[1..];
        assert parts[1..] == rest[1..];
      }
    }
  }

  lemma {:induction false} SplitAtFirst(head: string, c: char, tail: string)
    requires c !in head
    ensures Split(head + [c] + tail, c) == [head] + Split(tail, c)
  {
    var s := head + [c] + tail;
    if head == "" {
      assert s[1..] == tail;
    } else {
      assert s[0] == head[0] && head[0] in head;
      assert s[1..] == head[1..] + [c] + tail;
      SplitAtFirst(head[1..], c, tail);
      assert [head[0]] + head[1..] == head;
    }
  }

  lemma {:induction false} SplitWhole(s: string, c: char)
    requires c !in s
    ensures Split(s, c) == [s]
  {
    if s != "" {
      assert s[0] in s;
      SplitWhole(s[1..], c);
      assert [s[0]] + s[1..] == s;
    }
  }

  lemma {:induction false} SplitOfJoin(parts: seq<string>, c: char)
    requires parts != [] && forall k :: 0 <= k < |parts| ==> c !in parts[k]
    ensures Split(Join(parts, c), c) == parts
  {
    if |parts| == 1 {
      SplitWhole(parts[0], c);
    } else {
      SplitOfJoin(parts[1..], c);
      SplitAtFirst(parts[0], c, Join(parts[1..], c));
    }
  }

  function Count(s: string, c: char): nat {
    if s == "" then 0 else (if s[0] == c then 1 else 0) + Count(s[1..], c)
  }

  lemma {:induction false} CountZero(s: string, c: char)
    ensures Count(s, c) == 0 <==> c !in s
  {
    if s != "" {
      CountZero(s[1..], c);
    }
  }

  lemma {:induction false} CountConcat(a: string, b: string, c: char)
    ensures Count(a + b, c) == Count(a, c) + Count(b, c)
  {
    if a == "" {
      assert a + b == b;
    } else {
      assert (a + b)[1..] == a[1..] + b;
      CountConcat(a[1..], b, c);
    }
  }

  lemma {:induction false} SplitCounts(s: string, c: char)
    ensures |Split(s, c)| == Count(s, c) + 1
  {
    if s != "" {
      SplitCounts(s[1..], c);
    }
  }

  /** Joining pieces and splitting again gives as many pieces only when no piece holds the separator. */
  lemma {:induction false} JoinCounts(parts: seq<string>, c: char)
    requires parts != []
    ensures Count(Join(parts, c), c) >= |parts| - 1
    ensures Count(Join(parts, c), c) == |parts| - 1 ==> forall k :: 0 <= k < |parts| ==> c !in parts[k]
  {
    CountZero(parts[0], c);
    if |parts| > 1 {
      var rest := Join(parts[1..], c);
      JoinCounts(parts[1..], c);
      CountConcat(parts[0] + [c], rest, c);
      CountConcat(parts[0], [c], c);
      assert Count([c], c) == 1;
      if Count(Join(parts, c), c) == |parts| - 1 {
        forall k | 0 <= k < |parts|
          ensures c !in parts[k]
        {
          if k > 0 {
            assert parts[k] == parts[1..][k - 1];
          }
        }
      }
    }
  }

  // ------------------------------------------------------------------
  // Replacement
  // ------------------------------------------------------------------

  /** `replace` with a one-character pattern. */
  function ReplaceChar(s: string, c: char, with: string): string {
    if s == "" then "" else (if s[0] == c then with else [s[0]]) + ReplaceChar(s[1..], c, with)
  }

  /** `replace` with a two-character pattern, left to right without overlaps. */
  function ReplacePair(s: string, a: char, b: char, with: string): string {
    if s == "" then ""
    else if |s| >= 2 && s[0] == a && s[1] == b then with + ReplacePair(s[2..], a, b, with)
    else [s[0]] + ReplacePair(s[1..], a, b, with)
  }

  lemma {:induction false} ReplaceCharConcat(a: string, b: string, c: char, with: string)
    ensures ReplaceChar(a + b, c, with) == ReplaceChar(a, c, with) + ReplaceChar(b, c, with)
  {
    if a == "" {
      assert a + b == b;
    } else {
      assert (a + b)[1..] == a[1..] + b;
      ReplaceCharConcat(a[1..], b, c, with);
    }
  }

  lemma {:induction false} ReplacePairShrinks(s: string, a: char, b: char, with: string)
    requires |with| <= 2
    ensures |ReplacePair(s, a, b, with)| <= |s|
  {
    if s != "" {
      if |s| >= 2 && s[0] == a && s[1] == b {
        ReplacePairShrinks(s[2..], a, b, with);
      } else {
        ReplacePairShrinks(s[1..], a, b, with);
      }
    }
  }

  // ------------------------------------------------------------------
  // Decimal numbers
  // ------------------------------------------------------------------

  predicate IsDigit(c: char) {
    '0' <= c <= '9'
  }

  predicate AllDigits(s: string) {
    forall k :: 0 <= k < |s| ==> IsDigit(s[k])
  }

  function DigitValue(c: char): (v: nat)
    requires IsDigit(c)
    ensures v < 10
  {
    c as int - '0' as int
  }

  function DigitChar(v: nat): (c: char)
    requires v < 10
    ensures IsDigit(c) && DigitValue(c) == v
  {
    (v + '0' as int) as char
  }

  /** The digits stand for their places in the usual order. */
  lemma DigitsInOrder(v: nat)
    requires v < 10
    ensures DigitChar(v) == "0123456789"[v]
  {
  }

  /** The value of a digit string, leading zeros allowed. */
  function NatValue(s: string): nat
    requires AllDigits(s)
  {
    if s == "" then 0 else 10 * NatValue(s[..|s| - 1]) + DigitValue(s[|s| - 1])
  }

  /** The decimal text of a number, as `to_string` gives it. */
  function Digits(n: nat): (s: string)
    ensures s != "" && AllDigits(s)
  {
    if n < 10 then [DigitChar(n)] else Digits(n / 10) + [DigitChar(n % 10)]
  }

  lemma {:induction false} ValueOfDigits(n: nat)
    ensures NatValue(Digits(n)) == n
  {
    if n < 10 {
      assert Digits(n)[..0] == "";
    } else {
      ValueOfDigits(n / 10);
      assert Digits(n)[..|Digits(n)| - 1] == Digits(n / 10);
    }
  }

  /** The canonical text is the shortest one. */
  lemma {:induction false} DigitsAreShortest(s: string)
    requires s != "" && AllDigits(s)
    ensures |Digits(NatValue(s))| <= |s|
  {
    if |s| > 1 {
      DigitsAreShortest(s[..|s| - 1]);
    } else {
      assert s[..0] == "";
    }
  }

  /** The number of leading digits. */
  function DigitRun(s: string): (n: nat)
    ensures n <= |s| && AllDigits(s[..n])
    ensures n < |s| ==> !IsDigit(s[n])
  {
    if s == "" || !IsDigit(s[0]) then 0
    else
      var n := DigitRun(s[1..]);
      assert s[..n + 1] == [s[0]] + s[1..][..n];
      n + 1
  }

  lemma {:induction false} DigitRunOf(digits: string, rest: string)
    requires AllDigits(digits) && (rest == "" || !IsDigit(rest[0]))
    ensures DigitRun(digits + rest) == |digits|
  {
    if digits == "" {
      assert digits + rest == rest;
    } else {
      assert (digits + rest)[1..] == digits[1..] + rest;
      DigitRunOf(digits[1..], rest);
    }
  }

  const UsizeMax: nat := 0xFFFF_FFFF_FFFF_FFFF
  const I64Max: nat := 0x7FFF_FFFF_FFFF_FFFF

  /** `parse::<usize>`: an optional plus sign and digits, within 64 bits. */
  function ParseUsize(s: string): Option<nat> {
    var body := if s != "" && s[0] == '+' then s[1..] else s;
    if body != "" && AllDigits(body) && NatValue(body) <= UsizeMax then Some(NatValue(body)) else None
  }

  /** `parse::<i64>`: an optional sign and digits, within 64 bits. */
  function ParseI64(s: string): Option<int> {
    var negative := s != "" && s[0] == '-';
    var body := if s != "" && s[0] in {'+', '-'} then s[1..] else s;
    if body == "" || !AllDigits(body) then None
    else if negative then (if NatValue(body) <= I64Max + 1 then Some(-(NatValue(body) as int)) else None)
    else (if NatValue(body) <= I64Max then Some(NatValue(body)) else None)
  }

  predicate IsI64(n: int) {
    -9223372036854775808 <= n <= 9223372036854775807
  }

  predicate IsUsize(n: nat) {
    n <= 18446744073709551615
  }

  /** `s` is a sign and at least one digit. */
  ghost predicate IsDecimal(s: string, sign: string, body: string) {
    s == sign + body && body != "" && AllDigits(body)
  }

  /** The accepted indices are digits after an optional plus sign, up to the largest 64-bit number. */
  lemma UsizeIff(s: string, n: nat)
    ensures ParseUsize(s) == Some(n) <==>
      IsUsize(n) && exists sign, body :: sign in {"", "+"} && IsDecimal(s, sign, body) && NatValue(body) == n
  {
    if ParseUsize(s) == Some(n) {
      var sign := if s[0] == '+' then "+" else "";
      assert IsDecimal(s, sign, s[|sign|..]);
    }
    if sign, body :| sign in {"", "+"} && IsDecimal(s, sign, body) && NatValue(body) == n {
      assert s[|sign|..] == body && s[0] == if sign == "" then body[0] else '+';
    }
  }

  lemma DecimalValue(sign: string, body: string)
    requires sign in {"", "+", "-"} && body != "" && AllDigits(body)
    ensures var n := if sign == "-" then -(NatValue(body) as int) else NatValue(body);
            ParseI64(sign + body) == if IsI64(n) then Some(n) else None
  {
    var s := sign + body;
    assert s[|sign|..] == body && s[0] == if sign == "" then body[0] else sign[0];
  }

  lemma CutSign(s: string) returns (sign: string, body: string)
    requires ParseI64(s).Some?
    ensures sign in {"", "+", "-"} && IsDecimal(s, sign, body)
  {
    sign := if s[0] == '+' then "+" else if s[0] == '-' then "-" else "";
    body := s[|sign|..];
  }

  /** `s` is the sign and digits of `n`. */
  ghost predicate SpellsInt(s: string, n: int, sign: string, body: string) {
    && sign in {"", "+", "-"} && IsDecimal(s, sign, body)
    && n == if sign == "-" then -(NatValue(body) as int) else NatValue(body)
  }

  /** The accepted integers are digits after an optional sign, within 64 bits. */
  lemma I64Iff(s: string, n: int)
    ensures ParseI64(s) == Some(n) <==> IsI64(n) && exists sign, body :: SpellsInt(s, n, sign, body)
  {
    if ParseI64(s) == Some(n) {
      var sign, body := CutSign(s);
      DecimalValue(sign, body);
      assert SpellsInt(s, n, sign, body);
    }
    if sign, body :| SpellsInt(s, n, sign, body) {
      DecimalValue(sign, body);
    }
  }

  function PrintInt(n: int): string {
    if n < 0 then "-" + Digits(-n) else Digits(n)
  }

  lemma PrintedParts(sign: string, m: nat)
    requires sign in {"", "-"}
    ensures var n := if sign == "-" then -(m as int) else m;
            ParseI64(sign + Digits(m)) == if IsI64(n) then Some(n) else None
  {
    ValueOfDigits(m);
    DecimalValue(sign, Digits(m));
  }

  /** A printed integer is read back exactly if it fits into 64 bits. */
  lemma ParseOfPrint(n: int)
    ensures ParseI64(PrintInt(n)) == if IsI64(n) then Some(n) else None
  {
    if n < 0 {
      PrintedParts("-", -n);
    } else {
      PrintedParts("", n);
      assert "" + Digits(n) == Digits(n);
    }
  }
}
