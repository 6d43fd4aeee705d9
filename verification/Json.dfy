/**
  The JSON parser: recursive descent over the unconsumed suffix. The functions
  define the result, and the methods are the source's loops and compute it.
 */
module Json {
  import opened Options
  import opened Text
  import opened Values

  /** A parsed value with the unconsumed rest. */
  datatype Parsed<+T> = Parsed(value: T, rest: string)

  // ------------------------------------------------------------------
  // Characters
  // ------------------------------------------------------------------

  predicate StartsWith(s: string, prefix: string) {
    prefix <= s
  }

  // ------------------------------------------------------------------
  // Literals, strings, numbers
  // ------------------------------------------------------------------

  function Literal(s: string, word: string, value: Unknown): (r: Result<Parsed<Unknown>>)
    ensures r.Ok? && word != "" ==> |r.value.rest| < |s|
  {
    if StartsWith(s, word) then Ok(Parsed(value, s[|word|..])) else Err
  }

  function BoolLiteral(s: string): (r: Result<Parsed<Unknown>>)
    ensures r.Ok? ==> |r.value.rest| < |s|
  {
    if StartsWith(s, "true") then Literal(s, "true", Bool(true)) else Literal(s, "false", Bool(false))
  }

  predicate IsHex(c: char) {
    IsDigit(c) || 'a' <= c <= 'f' || 'A' <= c <= 'F'
  }

  function HexValue(c: char): (v: nat)
    requires IsHex(c)
    ensures v < 16
  {
    if IsDigit(c) then DigitValue(c) else if c >= 'a' then c as int - 'a' as int + 10 else c as int - 'A' as int + 10
  }

  /** The `\u` branch: four characters are read from the `u` on. */
  function UnicodeEscape(s: string): Result<char> {
    if |s| < 4 || !(IsHex(s[0]) && IsHex(s[1]) && IsHex(s[2]) && IsHex(s[3])) then Err
    else
      var code := ((HexValue(s[0]) * 16 + HexValue(s[1])) * 16 + HexValue(s[2])) * 16 + HexValue(s[3]);
      if 0xD800 <= code <= 0xDFFF then Err else Ok(code as char)
  }

  function Unescape(c: char): char {
    match c
    case 'b' => '\U{0008}'
    case 'f' => '\U{000C}'
    case 'n' => '\n'
    case 'r' => '\r'
    case 't' => '\t'
    case other => other
  }

  /** The character that `\` stands for when `s` follows it. */
  function EscapeAt(s: string): Result<char>
    requires s != ""
  {
    if s[0] == 'u' then UnicodeEscape(s) else Ok(Unescape(s[0]))
  }

  /** The rest of a string after its opening quote; `out` is what has been read. */
  function StringBody(s: string, escaped: bool, out: string): (r: Result<Parsed<string>>)
    ensures r.Ok? ==> |r.value.rest| < |s|
    decreases |s|
  {
    if s == "" then Err
    else if escaped then
      var c := EscapeAt(s);
      if c.Err? then Err else StringBody(s[1..], false, out + [c.value])
    else if s[0] == '\\' then StringBody(s[1..], true, out)
    else if s[0] == '"' then Ok(Parsed(out, s[1..]))
    else StringBody(s[1..], false, out + [s[0]])
  }

  function StringLiteral(s: string): (r: Result<Parsed<string>>)
    ensures r.Ok? ==> |r.value.rest| < |s|
  {
    if s == "" || s[0] != '"' then Err else StringBody(s[1..], false, "")
  }

  method ParseString(s: string) returns (r: Result<Parsed<string>>)
    ensures r == StringLiteral(s)
  {
    if s == "" || s[0] != '"' {
      return Err;
    }
    var out := "";
    var escaped := false;
    var k := 1;
    while k < |s|
      invariant 1 <= k <= |s|
      invariant StringLiteral(s) == StringBody(s[k..], escaped, out)
    {
      var ch := s[k];
      assert s[k..][1..] == s[k + 1..];
      if escaped {
        var c := EscapeAt(s[k..]);
        if c.Err? {
          return Err;
        }
        out, escaped := out + [c.value], false;
      } else if ch == '\\' {
        escaped := true;
      } else if ch == '"' {
        return Ok(Parsed(out, s[k + 1..]));
      } else {
        out := out + [ch];
      }
      k := k + 1;
    }
    r := Err;
  }

  /** Where the sign and the leading digits end. */
  function NumberHead(s: string): (end: nat)
    ensures end <= |s|
  {
    var start := if s != "" && s[0] == '-' then 1 else 0;
    start + DigitRun(s[start..])
  }

  /** The number with the given sign and digits, when `tail` follows them. */
  function NumberFrom(head: string, tail: string): (r: Result<Parsed<Unknown>>)
    ensures r.Ok? ==> |r.value.rest| <= |tail|
  {
    if tail != "" && tail[0] == '.' then
      var m := 1 + DigitRun(tail[1..]);
      Ok(Parsed(F64(head + tail[..m]), tail[m..]))
    else
      match ParseI64(head)
      case None => Err
      case Some(v) => Ok(Parsed(I64(v), tail))
  }

  function NumberLiteral(s: string): (r: Result<Parsed<Unknown>>)
    ensures r.Ok? ==> |r.value.rest| < |s|
  {
    var end := NumberHead(s);
    if end == 0 || (end == 1 && s[0] == '-') then Err else NumberFrom(s[..end], s[end..])
  }

  method SkipDigits(s: string, from: nat) returns (end: nat)
    requires from <= |s|
    ensures end == from + DigitRun(s[from..])
  {
    end := from;
    while end < |s| && IsDigit(s[end])
      invariant from <= end <= |s|
      invariant from + DigitRun(s[from..]) == end + DigitRun(s[end..])
    {
      assert s[end..][1..] == s[end + 1..];
      end := end + 1;
    }
  }

  lemma SliceTwice(s: string, end: nat, stop: nat)
    requires end < stop <= |s|
    ensures s[end..][1..] == s[end + 1..]
    ensures s[..end] + s[end..][..stop - end] == s[..stop]
    ensures s[end..][stop - end..] == s[stop..]
  {
  }

  method ParseFraction(s: string, end: nat) returns (r: Result<Parsed<Unknown>>)
    requires end < |s| && s[end] == '.'
    ensures r == NumberFrom(s[..end], s[end..])
  {
    var stop := SkipDigits(s, end + 1);
    SliceTwice(s, end, stop);
    r := Ok(Parsed(F64(s[..stop]), s[stop..]));
  }

  method ParseNumber(s: string) returns (r: Result<Parsed<Unknown>>)
    ensures r == NumberLiteral(s)
  {
    var start := 0;
    if s != "" && s[0] == '-' {
      start := 1;
    }
    var end := SkipDigits(s, start);
    if end == 0 || (end == 1 && s[0] == '-') {
      return Err;
    }
    if end < |s| && s[end] == '.' {
      r := ParseFraction(s, end);
      return;
    }
    match ParseI64(s[..end]) {
      case None => r := Err;
      case Some(v) => r := Ok(Parsed(I64(v), s[end..]));
    }
  }

  // ------------------------------------------------------------------
  // Values
  // ------------------------------------------------------------------

  /** A value after optional white space; the rest is always a strictly shorter text. */
  function Value(s: string): (r: Result<Parsed<Unknown>>)
    ensures r.Ok? ==> |r.value.rest| < |s|
    decreases |s|, 2
  {
    var t := TrimStart(s);
    if t == "" then Err
    else if t[0] == '"' then
      var str := StringLiteral(t);
      if str.Err? then Err else Ok(Parsed(String(str.value.value), str.value.rest))
    else if t[0] == '{' then ObjectLiteral(t)
    else if t[0] == '[' then ArrayLiteral(t)
    else if t[0] == 't' || t[0] == 'f' then BoolLiteral(t)
    else if t[0] == 'n' then Literal(t, "null", Null)
    else if t[0] == '-' || IsDigit(t[0]) then NumberLiteral(t)
    else Err
  }

  function ArrayLiteral(t: string): (r: Result<Parsed<Unknown>>)
    requires t != ""
    ensures r.Ok? ==> |r.value.rest| < |t|
    decreases |t|, 1
  {
    var current := TrimStart(t[1..]);
    if current != "" && current[0] == ']' then Ok(Parsed(Array([]), current[1..]))
    else Items(current, [])
  }

  /** The array loop: `items` are the elements read so far. */
  function Items(current: string, items: seq<Unknown>): (r: Result<Parsed<Unknown>>)
    ensures r.Ok? ==> |r.value.rest| < |current|
    decreases |current|, 3
  {
    var item := Value(current);
    if item.Err? then Err
    else
      var next := TrimStart(item.value.rest);
      var more := items + [item.value.value];
      if next == "" then Err
      else if next[0] == ']' then Ok(Parsed(Array(more), next[1..]))
      else if next[0] == ',' then Items(TrimStart(next[1..]), more)
      else Err
  }

  function ObjectLiteral(t: string): (r: Result<Parsed<Unknown>>)
    requires t != ""
    ensures r.Ok? ==> |r.value.rest| < |t|
    decreases |t|, 1
  {
    var current := TrimStart(t[1..]);
    if current != "" && current[0] == '}' then Ok(Parsed(Object(map[]), current[1..]))
    else Members(current, map[])
  }

  /** The object loop: `fields` are the members read so far; a later duplicate key replaces an earlier one. */
  function Members(current: string, fields: map<string, Unknown>): (r: Result<Parsed<Unknown>>)
    ensures r.Ok? ==> |r.value.rest| < |current|
    decreases |current|, 3
  {
    var key := StringLiteral(current);
    if key.Err? then Err
    else
      var colon := TrimStart(key.value.rest);
      if colon == "" || colon[0] != ':' then Err
      else
        var item := Value(TrimStart(colon[1..]));
        if item.Err? then Err
        else
          var next := TrimStart(item.value.rest);
          var more := fields[key.value.value := item.value.value];
          if next == "" then Err
          else if next[0] == '}' then Ok(Parsed(Object(more), next[1..]))
          else if next[0] == ',' then Members(TrimStart(next[1..]), more)
          else Err
  }

  method ParseValue(s: string) returns (r: Result<Parsed<Unknown>>)
    ensures r == Value(s)
    decreases |s|, 2
  {
    var t := TrimStart(s);
    if t == "" {
      r := Err;
    } else if t[0] == '"' {
      var str := ParseString(t);
      r := if str.Err? then Err else Ok(Parsed(String(str.value.value), str.value.rest));
    } else if t[0] == '{' {
      r := ParseObject(t);
    } else if t[0] == '[' {
      r := ParseArray(t);
    } else if t[0] == 't' || t[0] == 'f' {
      r := BoolLiteral(t);
    } else if t[0] == 'n' {
      r := Literal(t, "null", Null);
    } else if t[0] == '-' || IsDigit(t[0]) {
      r := ParseNumber(t);
    } else {
      r := Err;
    }
  }

  method ParseArray(t: string) returns (r: Result<Parsed<Unknown>>)
    requires t != ""
    ensures r == ArrayLiteral(t)
    decreases |t|, 1
  {
    var items: seq<Unknown> := [];
    var current := TrimStart(t[1..]);
    if current != "" && current[0] == ']' {
      return Ok(Parsed(Array(items), current[1..]));
    }
    while true
      invariant |current| < |t|
      invariant ArrayLiteral(t) == Items(current, items)
      decreases |current|
    {
      var item := ParseValue(current);
      if item.Err? {
        return Err;
      }
      items := items + [item.value.value];
      current := TrimStart(item.value.rest);
      if current != "" && current[0] == ']' {
        return Ok(Parsed(Array(items), current[1..]));
      }
      if current == "" || current[0] != ',' {
        return Err;
      }
      current := TrimStart(current[1..]);
    }
  }

  method ParseObject(t: string) returns (r: Result<Parsed<Unknown>>)
    requires t != ""
    ensures r == ObjectLiteral(t)
    decreases |t|, 1
  {
    var fields: map<string, Unknown> := map[];
    var current := TrimStart(t[1..]);
    if current != "" && current[0] == '}' {
      return Ok(Parsed(Object(fields), current[1..]));
    }
    while true
      invariant |current| < |t|
      invariant ObjectLiteral(t) == Members(current, fields)
      decreases |current|
    {
      var key := ParseString(current);
      if key.Err? {
        return Err;
      }
      current := TrimStart(key.value.rest);
      if current == "" || current[0] != ':' {
        return Err;
      }
      current := TrimStart(current[1..]);
      var item := ParseValue(current);
      if item.Err? {
        return Err;
      }
      fields := fields[key.value.value := item.value.value];
      current := TrimStart(item.value.rest);
      if current != "" && current[0] == '}' {
        return Ok(Parsed(Object(fields), current[1..]));
      }
      if current == "" || current[0] != ',' {
        return Err;
      }
      current := TrimStart(current[1..]);
    }
  }

  /** A complete document: one value, then only white space. */
  function Document(s: string): Result<Unknown> {
    var r := Value(TrimStart(s));
    if r.Ok? && TrimStart(r.value.rest) == "" then Ok(r.value.value) else Err
  }

  method ParseJsonDocument(s: string) returns (r: Result<Unknown>)
    ensures r == Document(s)
  {
    var parsed := ParseValue(TrimStart(s));
    r := if parsed.Ok? && TrimStart(parsed.value.rest) == "" then Ok(parsed.value.value) else Err;
  }
}
