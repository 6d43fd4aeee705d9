/**
  The auto-parallelising planner of the `effect!` macro: it keeps most chunks
  sequential and gathers runs of independent binds into parallel sets.
 */
module EffectGraph {
  import opened Options

  datatype Delimiter = Parenthesis | Bracket | Brace | Invisible
  datatype Token =
    | Ident(name: string)
    | Punct(ch: char)
    | Literal(text: string)
    | Group(delimiter: Delimiter, stream: seq<Token>)

  type Tokens = seq<Token>

  /** The capability-key test on operands, which parses Rust types; everything below holds for every such test. */
  type KeyTest = Tokens -> bool

  /** A recognised bind. The source keeps no annotation, since sets drop it; a bind that stays sequential has it. */
  datatype BindStep = BindStep(name: string, annotation: Tokens, operand: Tokens)

  datatype StmtPlan = ParallelSet(steps: seq<BindStep>) | Sequential(chunk: Tokens)

  const MaxParallelBinds: nat := 4

  // ------------------------------------------------------------------
  // Recognising binds
  // ------------------------------------------------------------------

  /** `name ~ rest` at the start of a chunk means `let name = ~ rest`. */
  function Desugar(chunk: Tokens): Tokens {
    if |chunk| >= 2 && chunk[0].Ident? && chunk[1] == Punct('~') then
      [Ident("let"), chunk[0], Punct('='), Punct('~')] + chunk[2..]
    else chunk
  }

  /** The angle-bracket depth after a token; a closing bracket too many is ignored. */
  function NextDepth(token: Token, depth: nat): nat {
    if token == Punct('<') then depth + 1
    else if token == Punct('>') && depth > 0 then depth - 1
    else depth
  }

  function Depth(tokens: Tokens, depth: nat): nat {
    if tokens == [] then depth else Depth(tokens[1..], NextDepth(tokens[0], depth))
  }

  /** How many more angle brackets are opened than closed. */
  function Excess(tokens: Tokens): int {
    if tokens == [] then 0
    else (if tokens[0] == Punct('<') then 1 else if tokens[0] == Punct('>') then -1 else 0) + Excess(tokens[1..])
  }

  /** The depth is the largest excess of opened brackets at the end of the tokens. */
  lemma {:induction false} DepthIsLargestExcess(tokens: Tokens, depth: nat)
    ensures Depth(tokens, depth) >= depth + Excess(tokens)
    ensures forall k :: 0 <= k <= |tokens| ==> Depth(tokens, depth) >= Excess(tokens[k..])
    ensures Depth(tokens, depth) == depth + Excess(tokens)
         || exists k :: 0 <= k <= |tokens| && Depth(tokens, depth) == Excess(tokens[k..])
  {
    if tokens != [] {
      var rest, next := tokens[1..], NextDepth(tokens[0], depth);
      DepthIsLargestExcess(rest, next);
      assert tokens[0..] == tokens;
      assert forall k :: 0 <= k <= |rest| ==> tokens[k + 1..] == rest[k..];
      forall k | 0 <= k <= |tokens|
        ensures Depth(tokens, depth) >= Excess(tokens[k..])
      {
        assert k > 0 ==> tokens[k..] == rest[k - 1..];
      }
      if Depth(rest, next) == next + Excess(rest) {
        assert tokens[1..] == rest;
      } else {
        var k :| 0 <= k <= |rest| && Depth(rest, next) == Excess(rest[k..]);
        assert tokens[k + 1..] == rest[k..];
      }
    }
  }

  /** The index of the `=` that ends a type annotation, or the length. */
  function SkipType(v: Tokens, idx: nat, depth: nat): (r: nat)
    requires idx <= |v|
    ensures idx <= r <= |v|
    ensures r < |v| ==> v[r] == Punct('=')
    decreases |v| - idx
  {
    if idx == |v| then idx
    else if v[idx] == Punct('<') then SkipType(v, idx + 1, depth + 1)
    else if v[idx] == Punct('>') && depth > 0 then SkipType(v, idx + 1, depth - 1)
    else if v[idx] == Punct('=') && depth == 0 then idx
    else SkipType(v, idx + 1, depth)
  }

  /** The bind `let name [: type] = ~ operand` that a chunk spells, unless the operand is a capability key. */
  function BindOf(isKey: KeyTest, v: Tokens): Option<BindStep> {
    if |v| < 4 || v[0] != Ident("let") || !v[1].Ident? then None
    else
      var idx := if v[2] == Punct(':') then SkipType(v, 3, 0) else 2;
      if idx + 1 < |v| && v[idx] == Punct('=') && v[idx + 1] == Punct('~') && !isKey(v[idx + 2..])
      then Some(BindStep(v[1].name, v[2..idx], v[idx + 2..]))
      else None
  }

  /** No `=` outside angle brackets. */
  ghost predicate EqualsFree(ty: Tokens) {
    forall k :: 0 <= k < |ty| && ty[k] == Punct('=') ==> Depth(ty[..k], 0) > 0
  }

  /** Nothing, or `:` and a type whose angle brackets are closed. */
  ghost predicate IsAnnotation(tokens: Tokens) {
    tokens == [] || (tokens[0] == Punct(':') && EqualsFree(tokens[1..]) && Depth(tokens[1..], 0) == 0)
  }

  /** `let name annotation = ~ operand` */
  ghost function LetBind(step: BindStep): Tokens {
    [Ident("let"), Ident(step.name)] + step.annotation + [Punct('='), Punct('~')] + step.operand
  }

  lemma {:induction false} DepthOfLonger(tokens: Tokens, token: Token, depth: nat)
    ensures Depth(tokens + [token], depth) == NextDepth(token, Depth(tokens, depth))
  {
    if tokens != [] {
      assert (tokens + [token])[1..] == tokens[1..] + [token];
      DepthOfLonger(tokens[1..], token, NextDepth(tokens[0], depth));
    } else {
      assert ([] + [token])[1..] == [];
    }
  }

  lemma DepthOfSlice(v: Tokens, from: nat, idx: nat)
    requires from <= idx < |v|
    ensures v[from..idx + 1] == v[from..idx] + [v[idx]]
    ensures Depth(v[from..idx + 1], 0) == NextDepth(v[idx], Depth(v[from..idx], 0))
  {
    assert v[from..idx + 1] == v[from..idx] + [v[idx]];
    DepthOfLonger(v[from..idx], v[idx], 0);
  }

  lemma LongerIsEqualsFree(ty: Tokens, token: Token)
    requires EqualsFree(ty) && (token == Punct('=') ==> Depth(ty, 0) > 0)
    ensures EqualsFree(ty + [token])
  {
    forall k | 0 <= k < |ty| + 1
      ensures (ty + [token])[..k] == ty[..k]
    {
    }
    assert ty[..|ty|] == ty;
  }

  /** The scan over a type stops at the first `=` outside angle brackets. */
  lemma {:induction false} SkipTypeIsFirst(v: Tokens, from: nat, idx: nat)
    requires from <= idx <= |v| && EqualsFree(v[from..idx])
    ensures var r := SkipType(v, idx, Depth(v[from..idx], 0));
            EqualsFree(v[from..r]) && (r < |v| ==> Depth(v[from..r], 0) == 0)
    decreases |v| - idx
  {
    var depth := Depth(v[from..idx], 0);
    if idx < |v| && !(v[idx] == Punct('=') && depth == 0) {
      DepthOfSlice(v, from, idx);
      LongerIsEqualsFree(v[from..idx], v[idx]);
      SkipTypeIsFirst(v, from, idx + 1);
    }
  }

  lemma NoEarlierEnd(v: Tokens, from: nat, n: nat, r: nat)
    requires from <= r <= |v| && from <= n <= |v| && EqualsFree(v[from..n])
    requires r < |v| && v[r] == Punct('=') && Depth(v[from..r], 0) == 0
    ensures n <= r
  {
    forall k | from <= k < n
      ensures v[from..n][k - from] == v[k] && v[from..n][..k - from] == v[from..k]
    {
    }
  }

  /** The recognised binds are the chunks `let name [: type] = ~ operand` whose operand is no capability key. */
  lemma BindIff(isKey: KeyTest, v: Tokens, step: BindStep)
    ensures BindOf(isKey, v) == Some(step) <==>
            IsAnnotation(step.annotation) && !isKey(step.operand) && v == LetBind(step)
  {
    if BindOf(isKey, v) == Some(step) {
      BindIsLetBind(isKey, v);
    }
    if IsAnnotation(step.annotation) && !isKey(step.operand) {
      LetBindIsBind(isKey, step);
    }
  }

  lemma BindIsLetBind(isKey: KeyTest, v: Tokens)
    requires BindOf(isKey, v).Some?
    ensures var step := BindOf(isKey, v).value;
            IsAnnotation(step.annotation) && !isKey(step.operand) && v == LetBind(step)
  {
    var idx := if v[2] == Punct(':') then SkipType(v, 3, 0) else 2;
    if v[2] == Punct(':') {
      assert v[3..3] == [];
      SkipTypeIsFirst(v, 3, 3);
      assert v[2..idx][1..] == v[3..idx];
    }
    assert v == [v[0], v[1]] + v[2..idx] + [v[idx], v[idx + 1]] + v[idx + 2..];
  }

  lemma LetBindIsBind(isKey: KeyTest, step: BindStep)
    requires IsAnnotation(step.annotation) && !isKey(step.operand)
    ensures BindOf(isKey, LetBind(step)) == Some(step)
  {
    var annotation := step.annotation;
    var v, n := LetBind(step), 2 + |annotation|;
    assert v[n] == Punct('=') && v[n + 1] == Punct('~') && v[n + 2..] == step.operand && v[2..n] == annotation;
    if annotation != [] {
      assert v[2] == Punct(':') && v[3..n] == annotation[1..] && v[3..3] == [];
      SkipTypeIsFirst(v, 3, 3);
      SkipTypeReaches(v, 3, 3, n);
      NoEarlierEnd(v, 3, n, SkipType(v, 3, 0));
    }
  }

  /** The scan does not run past an `=` outside angle brackets. */
  lemma {:induction false} SkipTypeReaches(v: Tokens, from: nat, idx: nat, n: nat)
    requires from <= idx <= n < |v| && v[n] == Punct('=') && Depth(v[from..n], 0) == 0
    ensures SkipType(v, idx, Depth(v[from..idx], 0)) <= n
    decreases n - idx
  {
    if idx < n {
      DepthOfSlice(v, from, idx);
      SkipTypeReaches(v, from, idx + 1, n);
    }
  }

  method ParseBindStep(isKey: KeyTest, v: Tokens) returns (r: Option<BindStep>)
    ensures r == BindOf(isKey, v)
  {
    if |v| < 4 || !v[0].Ident? || v[0].name != "let" || !v[1].Ident? {
      return None;
    }
    var idx := 2;
    if v[idx] == Punct(':') {
      idx := 3;
      var depth: nat := 0;
      while idx < |v| && !(v[idx] == Punct('=') && depth == 0)
        invariant 3 <= idx <= |v|
        invariant SkipType(v, idx, depth) == SkipType(v, 3, 0)
      {
        if v[idx] == Punct('<') {
          depth := depth + 1;
        } else if v[idx] == Punct('>') && depth > 0 {
          depth := depth - 1;
        }
        idx := idx + 1;
      }
    }
    if idx >= |v| || v[idx] != Punct('=') {
      return None;
    }
    var annotation := v[2..idx];
    idx := idx + 1;
    if idx >= |v| || v[idx] != Punct('~') {
      return None;
    }
    idx := idx + 1;
    if isKey(v[idx..]) {
      return None;
    }
    r := Some(BindStep(v[1].name, annotation, v[idx..]));
  }

  /** The text of a token stream without blanks. */
  function Squeezed(tokens: Tokens): string
    decreases tokens
  {
    if tokens == [] then ""
    else
      (match tokens[0]
       case Ident(n) => n
       case Punct(c) => [c]
       case Literal(t) => WithoutBlanks(t)
       case Group(d, s) => Opening(d) + Squeezed(s) + Closing(d))
      + Squeezed(tokens[1..])
  }

  function WithoutBlanks(s: string): string {
    if s == "" then ""
    else (if s[0] in {' ', '\n', '\t'} then "" else [s[0]]) + WithoutBlanks(s[1..])
  }

  function Opening(d: Delimiter): string {
    match d case Parenthesis => "(" case Bracket => "[" case Brace => "{" case Invisible => ""
  }

  function Closing(d: Delimiter): string {
    match d case Parenthesis => ")" case Bracket => "]" case Brace => "}" case Invisible => ""
  }

  /** The blank, the line feed and the tabulator. */
  predicate IsBlankChar(c: char) {
    c as int in {32, 10, 9}
  }

  lemma {:induction false} TextStays(s: string)
    requires forall k :: 0 <= k < |s| ==> !IsBlankChar(s[k])
    ensures WithoutBlanks(s) == s
  {
    if s != "" {
      assert !IsBlankChar(s[0]);
      TextStays(s[1..]);
    }
  }

  /** Leaving out a blank anywhere changes nothing, and a text without blanks stays as it is. */
  lemma {:induction false} BlanksVanish(a: string, c: char, b: string)
    requires IsBlankChar(c)
    ensures WithoutBlanks(a + [c] + b) == WithoutBlanks(a + b)
    ensures (forall k :: 0 <= k < |a| ==> !IsBlankChar(a[k])) ==> WithoutBlanks(a) == a
  {
    if a == "" {
      assert a + [c] + b == [c] + b && ([c] + b)[1..] == b && a + b == b;
    } else {
      assert (a + [c] + b)[1..] == a[1..] + [c] + b && (a + b)[1..] == a[1..] + b;
      BlanksVanish(a[1..], c, b);
    }
    if forall k :: 0 <= k < |a| ==> !IsBlankChar(a[k]) {
      TextStays(a);
    }
  }

  predicate IsWord(s: string) {
    forall k :: 0 <= k < |s| ==> s[k] !in {'(', ')', '[', ']', '{', '}'}
  }

  lemma CallText(f: string, d: Delimiter, a: string)
    ensures Squeezed([Ident(f), Group(d, [Ident(a)])]) == f + (Opening(d) + a + Closing(d))
  {
    var inner, group := [Ident(a)], [Group(d, [Ident(a)])];
    assert inner[1..] == [] && group[1..] == [] && [Ident(f), Group(d, inner)][1..] == group;
    assert a + "" == a;
    assert Squeezed(inner) == a;
    assert Opening(d) + a + Closing(d) + "" == Opening(d) + a + Closing(d);
    assert Squeezed(group) == Opening(d) + a + Closing(d);
  }

  lemma MarkerIsWords()
    ensures "effect(serial)" == "effect" + ("(" + "serial" + ")")
    ensures IsWord("effect") && IsWord("serial")
  {
  }

  /** The position of the first bracket, or the length. */
  function FirstBracket(s: string): nat {
    if s == "" || !IsWord(s[..1]) then 0 else 1 + FirstBracket(s[1..])
  }

  lemma {:induction false} BracketAfterWord(f: string, tail: string)
    requires IsWord(f)
    ensures FirstBracket(f + tail) == |f| + FirstBracket(tail)
  {
    if f == "" {
      assert f + tail == tail;
    } else {
      assert (f + tail)[..1] == f[..1] && (f + tail)[1..] == f[1..] + tail;
      BracketAfterWord(f[1..], tail);
    }
  }

  /** Of the attributes `f(a)`, with any brackets, only `effect(serial)` is the marker. */
  lemma MarkerIff(f: string, d: Delimiter, a: string)
    requires IsWord(f) && IsWord(a)
    ensures Squeezed([Ident(f), Group(d, [Ident(a)])]) == "effect(serial)" <==>
            f == "effect" && d == Parenthesis && a == "serial"
  {
    CallText(f, d, a);
    MarkerIsWords();
    var tail, rest := Opening(d) + a + Closing(d), "(" + "serial" + ")";
    BracketAfterWord(f, tail);
    BracketAfterWord("effect", rest);
    BracketAfterWord(a, "");
    assert a + "" == a && (d == Invisible ==> tail == a);
    assert rest[..1][0] == '(' && (d != Invisible ==> tail[..1][0] == tail[0] == Opening(d)[0]);
    assert (f + tail)[..|f|] == f && (f + tail)[|f|..] == tail;
    assert ("effect" + rest)[..6] == "effect" && ("effect" + rest)[6..] == rest;
    assert d != Invisible ==> a == tail[1..|tail| - 1];
    assert rest[1..|rest| - 1] == "serial";
  }

  /** A leading `#[effect(serial)]`, possibly after other attributes and groups. */
  predicate HasSerialAttr(chunk: Tokens) {
    if chunk == [] then false
    else if chunk[0] == Punct('#') then
      && |chunk| > 1
      && chunk[1].Group?
      && ((chunk[1].delimiter == Bracket && Squeezed(chunk[1].stream) == "effect(serial)")
          || HasSerialAttr(chunk[2..]))
    else chunk[0].Group? && HasSerialAttr(chunk[1..])
  }

  /** Groups, and attributes written as `#` and a group. */
  predicate IsPrelude(tokens: Tokens) {
    tokens == []
    || (tokens[0].Group? && IsPrelude(tokens[1..]))
    || (tokens[0] == Punct('#') && |tokens| > 1 && tokens[1].Group? && IsPrelude(tokens[2..]))
  }

  /** `#[effect(serial)]` stands at `k`, and only attributes and groups before it. */
  ghost predicate SerialAt(chunk: Tokens, k: nat) {
    && k + 1 < |chunk| && IsPrelude(chunk[..k]) && chunk[k] == Punct('#')
    && chunk[k + 1].Group? && chunk[k + 1].delimiter == Bracket && Squeezed(chunk[k + 1].stream) == "effect(serial)"
  }

  /** The scan finds a marker exactly when one stands behind attributes and groups only. */
  lemma SerialIff(chunk: Tokens)
    ensures HasSerialAttr(chunk) <==> exists k: nat :: SerialAt(chunk, k)
  {
    if HasSerialAttr(chunk) {
      var k := FindSerial(chunk);
    }
    if k: nat :| SerialAt(chunk, k) {
      SerialIsFound(chunk, k);
    }
  }

  lemma {:induction false} FindSerial(chunk: Tokens) returns (k: nat)
    requires HasSerialAttr(chunk)
    ensures SerialAt(chunk, k)
  {
    if chunk[0] == Punct('#') {
      if chunk[1].delimiter == Bracket && Squeezed(chunk[1].stream) == "effect(serial)" {
        k := 0;
      } else {
        k := FindSerial(chunk[2..]);
        k := k + 2;
        assert chunk[..k][2..] == chunk[2..][..k - 2];
      }
    } else {
      k := FindSerial(chunk[1..]);
      k := k + 1;
      assert chunk[..k][1..] == chunk[1..][..k - 1];
    }
  }

  lemma {:induction false} SerialIsFound(chunk: Tokens, k: nat)
    requires SerialAt(chunk, k)
    ensures HasSerialAttr(chunk)
  {
    if k > 0 {
      if chunk[..k][0].Group? {
        assert chunk[..k][1..] == chunk[1..][..k - 1];
        SerialIsFound(chunk[1..], k - 1);
      } else {
        assert chunk[..k][2..] == chunk[2..][..k - 2];
        SerialIsFound(chunk[2..], k - 2);
      }
    }
  }

  method ChunkHasSerialAttr(chunk: Tokens) returns (b: bool)
    ensures b == HasSerialAttr(chunk)
  {
    var k := 0;
    while k < |chunk|
      invariant 0 <= k <= |chunk|
      invariant HasSerialAttr(chunk) == HasSerialAttr(chunk[k..])
    {
      if chunk[k] == Punct('#') {
        k := k + 1;
        if k == |chunk| || !chunk[k].Group? {
          return false;
        }
        if chunk[k].delimiter == Bracket && Squeezed(chunk[k].stream) == "effect(serial)" {
          return true;
        }
        k := k + 1;
      } else if chunk[k].Group? {
        k := k + 1;
      } else {
        return false;
      }
    }
    b := false;
  }

  predicate Serial(chunk: Tokens) {
    HasSerialAttr(chunk) || HasSerialAttr(Desugar(chunk))
  }

  function Recognised(isKey: KeyTest, chunk: Tokens): Option<BindStep> {
    BindOf(isKey, Desugar(chunk))
  }

  /** A serial-marked chunk is never recognised as a bind: it does not start with `let`. */
  lemma SerialIsNotABind(isKey: KeyTest, chunk: Tokens)
    requires Serial(chunk)
    ensures Recognised(isKey, chunk) == None
  {
    assert HasSerialAttr(Desugar(chunk)) ==> !Desugar(chunk)[0].Ident?;
  }

  // ------------------------------------------------------------------
  // Dependencies
  // ------------------------------------------------------------------

  /** `name` occurs as an identifier, at any nesting depth. */
  predicate Mentions(tokens: Tokens, name: string)
    decreases tokens
  {
    tokens != [] &&
    (|| tokens[0] == Ident(name)
     || (tokens[0].Group? && Mentions(tokens[0].stream, name))
     || Mentions(tokens[1..], name))
  }

  /** `token` stands at this position: an index into the tokens, then one into each group on the way. */
  ghost predicate StandsAt(tokens: Tokens, at: seq<nat>, token: Token)
    decreases |at|
  {
    && at != [] && at[0] < |tokens|
    && if |at| == 1 then tokens[at[0]] == token
       else tokens[at[0]].Group? && StandsAt(tokens[at[0]].stream, at[1..], token)
  }

  /** `token` stands somewhere, inside groups with any delimiter included. */
  ghost predicate Occurs(tokens: Tokens, token: Token) {
    exists at :: StandsAt(tokens, at, token)
  }

  lemma {:induction false} FindMention(tokens: Tokens, name: string) returns (at: seq<nat>)
    requires Mentions(tokens, name)
    ensures StandsAt(tokens, at, Ident(name))
    decreases tokens
  {
    if tokens[0] == Ident(name) {
      at := [0];
    } else if tokens[0].Group? && Mentions(tokens[0].stream, name) {
      var inner := FindMention(tokens[0].stream, name);
      at := [0] + inner;
      assert at[1..] == inner;
    } else {
      var later := FindMention(tokens[1..], name);
      at := [later[0] + 1] + later[1..];
      assert at[1..] == later[1..];
    }
  }

  lemma {:induction false} MentionLater(tokens: Tokens, k: nat, name: string)
    requires k < |tokens|
    requires tokens[k] == Ident(name) || (tokens[k].Group? && Mentions(tokens[k].stream, name))
    ensures Mentions(tokens, name)
    decreases k
  {
    if k > 0 {
      MentionLater(tokens[1..], k - 1, name);
    }
  }

  lemma {:induction false} StandingIsMentioned(tokens: Tokens, at: seq<nat>, name: string)
    requires StandsAt(tokens, at, Ident(name))
    ensures Mentions(tokens, name)
    decreases |at|
  {
    if |at| > 1 {
      StandingIsMentioned(tokens[at[0]].stream, at[1..], name);
    }
    MentionLater(tokens, at[0], name);
  }

  /** The dependency scan finds a name exactly when it stands somewhere as an identifier. */
  lemma MentionsIff(tokens: Tokens, name: string)
    ensures Mentions(tokens, name) <==> Occurs(tokens, Ident(name))
  {
    if Mentions(tokens, name) {
      var at := FindMention(tokens, name);
    }
    if at :| StandsAt(tokens, at, Ident(name)) {
      StandingIsMentioned(tokens, at, name);
    }
  }

  predicate DependsOn(step: BindStep, prior: seq<string>) {
    exists n :: n in prior && Mentions(step.operand, n)
  }

  function Names(steps: seq<BindStep>): seq<string> {
    seq(|steps|, k requires 0 <= k < |steps| => steps[k].name)
  }

  // ------------------------------------------------------------------
  // The plan, as a function of the chunks
  // ------------------------------------------------------------------

  /** What the planner sees in a chunk: nothing, a bind it may move, or anything else. */
  datatype Kind = Blank | Plain | Bind(step: BindStep)

  type Classifier = Tokens -> Kind

  function Classify(isKey: KeyTest, chunk: Tokens): Kind {
    if chunk == [] then Blank
    else if Serial(chunk) || Recognised(isKey, chunk) == None then Plain
    else Bind(Recognised(isKey, chunk).value)
  }

  /**
    What the planner sees: a blank chunk is empty, and a bind is `let name [: type] = ~ operand`
    or `name ~ operand`, unless the operand is a capability key.
   */
  lemma KindIff(isKey: KeyTest, chunk: Tokens, step: BindStep)
    ensures Classify(isKey, chunk) == Blank <==> chunk == []
    ensures Classify(isKey, chunk) == Bind(step) <==>
      && IsAnnotation(step.annotation) && !isKey(step.operand)
      && (chunk == LetBind(step) ||
          (step.annotation == [] && chunk == [Ident(step.name), Punct('~')] + step.operand))
  {
    var desugared := Desugar(chunk);
    BindIff(isKey, desugared, step);
    if Serial(chunk) {
      SerialIsNotABind(isKey, chunk);
    }
    if |chunk| >= 2 && chunk[0].Ident? && chunk[1] == Punct('~') {
      if IsAnnotation(step.annotation) {
        ShortBind(chunk, step);
      }
    } else {
      assert chunk != [Ident(step.name), Punct('~')] + step.operand;
    }
  }

  lemma ShortBind(chunk: Tokens, step: BindStep)
    requires |chunk| >= 2 && chunk[0].Ident? && chunk[1] == Punct('~')
    requires IsAnnotation(step.annotation)
    ensures chunk != LetBind(step)
    ensures Desugar(chunk) == LetBind(step) <==>
            step.annotation == [] && chunk == [Ident(step.name), Punct('~')] + step.operand
  {
    var whole, v := LetBind(step), Desugar(chunk);
    assert whole[1] == Ident(step.name);
    assert v[4..] == chunk[2..] && chunk == [chunk[0], chunk[1]] + chunk[2..];
    if step.annotation == [] {
      assert whole[4..] == step.operand;
    } else {
      assert whole[2] == Punct(':');
    }
  }

  function ClassifierFor(isKey: KeyTest): Classifier {
    chunk => Classify(isKey, chunk)
  }

  /** The chunk can join a group after the names in `prior` have been bound. */
  predicate Absorbable(kind: Kind, prior: seq<string>) {
    kind.Bind? && !DependsOn(kind.step, prior)
  }

  /** A group, extended by as many of the chunks from `j` on as possible. */
  function Grow(of: Classifier, chunks: seq<Tokens>, j: nat, group: seq<BindStep>,
                bound: seq<string>): (r: seq<BindStep>)
    requires j <= |chunks|
    ensures |group| <= |r| <= |group| + |chunks| - j
    ensures |group| <= MaxParallelBinds ==> |r| <= MaxParallelBinds
    decreases |chunks| - j
  {
    if |group| < MaxParallelBinds && j < |chunks| && Absorbable(of(chunks[j]), bound + Names(group))
    then Grow(of, chunks, j + 1, group + [of(chunks[j]).step], bound)
    else group
  }

  /** The group that starts at chunk `i`, empty when the chunk stays sequential. */
  function GroupAt(of: Classifier, chunks: seq<Tokens>, i: nat, bound: seq<string>): (r: seq<BindStep>)
    requires i < |chunks|
    ensures |r| <= MaxParallelBinds && |r| <= |chunks| - i
  {
    if Absorbable(of(chunks[i]), bound) then Grow(of, chunks, i + 1, [of(chunks[i]).step], bound) else []
  }

  function EntriesAt(of: Classifier, chunks: seq<Tokens>, i: nat, bound: seq<string>): seq<StmtPlan>
    requires i < |chunks|
  {
    var group := GroupAt(of, chunks, i, bound);
    if |group| >= 2 then [ParallelSet(group)] else if of(chunks[i]).Blank? then [] else [Sequential(chunks[i])]
  }

  function NamesAt(of: Classifier, chunks: seq<Tokens>, i: nat, bound: seq<string>): seq<string>
    requires i < |chunks|
  {
    var group := GroupAt(of, chunks, i, bound);
    if group != [] then Names(group) else if of(chunks[i]).Bind? then [of(chunks[i]).step.name] else []
  }

  function UsedAt(of: Classifier, chunks: seq<Tokens>, i: nat, bound: seq<string>): (n: nat)
    requires i < |chunks|
    ensures 1 <= n <= |chunks| - i
  {
    var group := GroupAt(of, chunks, i, bound);
    if group == [] then 1 else |group|
  }

  /** The plan of the chunks from `i` on, when `bound` are the names bound before. */
  function Plan(of: Classifier, chunks: seq<Tokens>, i: nat, bound: seq<string>): seq<StmtPlan>
    requires i <= |chunks|
    decreases |chunks| - i
  {
    if i == |chunks| then []
    else
      EntriesAt(of, chunks, i, bound)
      + Plan(of, chunks, i + UsedAt(of, chunks, i, bound), bound + NamesAt(of, chunks, i, bound))
  }

  /** The plan with an accumulator, as the loop builds it. */
  function PlanOnto(of: Classifier, chunks: seq<Tokens>, i: nat, bound: seq<string>,
                    plans: seq<StmtPlan>): seq<StmtPlan>
    requires i <= |chunks|
    decreases |chunks| - i
  {
    if i == |chunks| then plans
    else
      PlanOnto(of, chunks, i + UsedAt(of, chunks, i, bound), bound + NamesAt(of, chunks, i, bound),
               plans + EntriesAt(of, chunks, i, bound))
  }

  lemma OntoIsLonger(a: seq<StmtPlan>, b: seq<StmtPlan>, c: seq<StmtPlan>)
    ensures (a + b) + c == a + (b + c)
  {
  }

  lemma {:induction false} PlanOntoIsPlan(of: Classifier, chunks: seq<Tokens>, i: nat, bound: seq<string>,
                                          plans: seq<StmtPlan>)
    requires i <= |chunks|
    ensures PlanOnto(of, chunks, i, bound, plans) == plans + Plan(of, chunks, i, bound)
    decreases |chunks| - i
  {
    if i < |chunks| {
      var next, used := EntriesAt(of, chunks, i, bound), UsedAt(of, chunks, i, bound);
      var names := bound + NamesAt(of, chunks, i, bound);
      PlanOntoIsPlan(of, chunks, i + used, names, plans + next);
      OntoIsLonger(plans, next, Plan(of, chunks, i + used, names));
    }
  }

  lemma OntoNothing(of: Classifier, chunks: seq<Tokens>)
    ensures PlanOnto(of, chunks, 0, [], []) == Plan(of, chunks, 0, [])
  {
    PlanOntoIsPlan(of, chunks, 0, [], []);
  }

  /** The tests the planner makes on a chunk, in its order, compute its kind. */
  method ClassifyChunk(isKey: KeyTest, chunk: Tokens) returns (kind: Kind)
    ensures kind == Classify(isKey, chunk)
  {
    if chunk == [] {
      return Blank;
    }
    var desugared := Desugar(chunk);
    var serial := ChunkHasSerialAttr(chunk);
    if !serial {
      serial := ChunkHasSerialAttr(desugared);
    }
    var step := ParseBindStep(isKey, desugared);
    kind := if serial || step.None? then Plain else Bind(step.value);
  }

  /** The inner loop: extends the group that starts with chunk `i`. */
  method GrowGroup(of: Classifier, chunks: seq<Tokens>, i: nat, step0: BindStep, bound: seq<string>)
    returns (group: seq<BindStep>)
    requires i < |chunks|
    ensures group == Grow(of, chunks, i + 1, [step0], bound)
  {
    group := [step0];
    var j := i + 1;
    while j < |chunks| && |group| < MaxParallelBinds
      invariant i < j <= |chunks|
      invariant Grow(of, chunks, i + 1, [step0], bound) == Grow(of, chunks, j, group, bound)
    {
      var next := of(chunks[j]);
      if !next.Bind? || DependsOn(next.step, bound + Names(group)) {
        break;
      }
      group := group + [next.step];
      j := j + 1;
    }
  }

  /** The body of the outer loop: plan entries, names bound and chunks used from chunk `i` on. */
  method PlanNext(of: Classifier, chunks: seq<Tokens>, i: nat, bound: seq<string>)
    returns (plans: seq<StmtPlan>, names: seq<string>, used: nat)
    requires i < |chunks|
    ensures plans == EntriesAt(of, chunks, i, bound)
    ensures names == NamesAt(of, chunks, i, bound)
    ensures used == UsedAt(of, chunks, i, bound)
  {
    var kind := of(chunks[i]);
    if kind.Blank? {
      return [], [], 1;
    }
    if kind.Plain? {
      return [Sequential(chunks[i])], [], 1;
    }
    if DependsOn(kind.step, bound) {
      return [Sequential(chunks[i])], [kind.step.name], 1;
    }
    var group := GrowGroup(of, chunks, i, kind.step, bound);
    plans := if |group| >= 2 then [ParallelSet(group)] else [Sequential(chunks[i])];
    names, used := Names(group), |group|;
  }

  method PlanStep(of: Classifier, chunks: seq<Tokens>, i0: nat, bound0: seq<string>, plans0: seq<StmtPlan>)
    returns (i: nat, bound: seq<string>, plans: seq<StmtPlan>)
    requires i0 < |chunks|
    ensures i0 < i <= |chunks|
    ensures PlanOnto(of, chunks, i0, bound0, plans0) == PlanOnto(of, chunks, i, bound, plans)
  {
    var next, names, used := PlanNext(of, chunks, i0, bound0);
    i, bound, plans := i0 + used, bound0 + names, plans0 + next;
  }

  /** The planner's two nested loops compute the plan. */
  method PlanStatementChunks(of: Classifier, chunks: seq<Tokens>) returns (plans: seq<StmtPlan>)
    ensures plans == Plan(of, chunks, 0, [])
  {
    plans := [];
    var bound: seq<string> := [];
    var i := 0;
    while i < |chunks|
      invariant 0 <= i <= |chunks|
      invariant PlanOnto(of, chunks, 0, [], []) == PlanOnto(of, chunks, i, bound, plans)
    {
      i, bound, plans := PlanStep(of, chunks, i, bound, plans);
    }
    OntoNothing(of, chunks);
  }
}
