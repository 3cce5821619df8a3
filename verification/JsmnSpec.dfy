/**
  What the jsmn tokenizer computes, one lexeme at a time, as functions on values.

  The text is a sequence of characters; like the C code, reading stops at the
  end of the text or at a NUL, whichever comes first.
 */
module JsmnSpec {
  import opened Text

  datatype TokenType = Primitive | Object | Array | String

  /** `end == -1` marks a container that is still open. */
  datatype Token = Token(typ: TokenType, start: int, end: int, size: int)

  datatype Outcome = Done(count: nat) | NoMem | Inval | Part

  /** The parser's fields together with the filled part of the token array. */
  datatype State = State(pos: nat, toks: seq<Token>, super: int)

  const Fresh := State(0, [], -1)

  /** The C return value of an outcome. */
  function Code(o: Outcome): int {
    match o
    case Done(n) => n
    case NoMem => -1
    case Inval => -2
    case Part => -3
  }

  // ----- characters -----

  predicate IsSpace(c: char) {
    c == '\t' || c == '\r' || c == '\n' || c == ' '
  }

  /** The characters that end an unquoted primitive. */
  predicate IsDelimiter(c: char) {
    IsSpace(c) || c == ':' || c == ',' || c == ']' || c == '}'
  }

  predicate IsPrintable(c: char) {
    32 <= c as int < 127
  }

  predicate IsHex(c: char) {
    '0' <= c <= '9' || 'A' <= c <= 'F' || 'a' <= c <= 'f'
  }

  predicate IsSimpleEscape(c: char) {
    c in "\"/\\bfrnt"
  }

  function OpenType(c: char): TokenType { if c == '{' then Object else Array }

  function CloseType(c: char): TokenType { if c == '}' then Object else Array }

  // ----- lexemes -----

  datatype Scan = Found(end: nat) | Unfinished | Bad

  function ScanPrimitive(js: string, p: nat): (r: Scan)
    requires p <= |js|
    ensures r.Found? ==> p <= r.end <= |js|
    ensures !r.Unfinished?
    decreases |js| - p
  {
    if AtEnd(js, p) || IsDelimiter(js[p]) then Found(p)
    else if !IsPrintable(js[p]) then Bad
    else ScanPrimitive(js, p + 1)
  }

  /** At most `n` hexadecimal digits; the text may end early, another character may not. */
  function ScanHex(js: string, p: nat, n: nat): (r: Scan)
    requires p <= |js|
    ensures r.Found? ==> p <= r.end <= |js|
    ensures !r.Unfinished?
    decreases n
  {
    if n == 0 || AtEnd(js, p) then Found(p)
    else if !IsHex(js[p]) then Bad
    else ScanHex(js, p + 1, n - 1)
  }

  /** From just after the opening quote to the position of the closing one. */
  function ScanString(js: string, p: nat): (r: Scan)
    requires p <= |js|
    ensures r.Found? ==> p <= r.end < |js| && js[r.end] == '\"'
    decreases |js| - p
  {
    if AtEnd(js, p) then Unfinished
    else if js[p] == '\"' then Found(p)
    else if js[p] == '\\' && p + 1 < |js| then
      if IsSimpleEscape(js[p + 1]) then ScanString(js, p + 2)
      else if js[p + 1] == 'u' then
        var h := ScanHex(js, p + 2, 4);
        if h.Bad? then Bad else ScanString(js, h.end)
      else Bad
    else ScanString(js, p + 1)
  }

  // ----- the token array -----

  predicate IsOpen(t: Token) {
    t.start != -1 && t.end == -1
  }

  predicate IsContainer(t: Token) {
    t.typ == Array || t.typ == Object
  }

  /** The backward scan for the innermost open token; -1 when there is none. */
  function LastOpen(toks: seq<Token>): (i: int)
    ensures -1 <= i < |toks|
    ensures i >= 0 ==> IsOpen(toks[i])
    ensures forall j :: i < j < |toks| ==> !IsOpen(toks[j])
  {
    if toks == [] then -1
    else if IsOpen(toks[|toks| - 1]) then |toks| - 1
    else LastOpen(toks[..|toks| - 1])
  }

  /** The same scan as a comma makes it, which also tests the type. */
  function LastOpenContainer(toks: seq<Token>): (i: int)
    ensures -1 <= i < |toks|
    ensures i >= 0 ==> IsOpen(toks[i]) && IsContainer(toks[i])
    ensures forall j :: i < j < |toks| ==> !(IsOpen(toks[j]) && IsContainer(toks[j]))
  {
    if toks == [] then -1
    else if IsOpen(toks[|toks| - 1]) && IsContainer(toks[|toks| - 1]) then |toks| - 1
    else LastOpenContainer(toks[..|toks| - 1])
  }

  lemma LastOpenIs(toks: seq<Token>, i: int)
    requires -1 <= i < |toks| && (i >= 0 ==> IsOpen(toks[i]))
    requires forall j :: i < j < |toks| ==> !IsOpen(toks[j])
    ensures LastOpen(toks) == i
  {
  }

  lemma LastOpenContainerIs(toks: seq<Token>, i: int)
    requires -1 <= i < |toks| && (i >= 0 ==> IsOpen(toks[i]) && IsContainer(toks[i]))
    requires forall j :: i < j < |toks| ==> !(IsOpen(toks[j]) && IsContainer(toks[j]))
    ensures LastOpenContainer(toks) == i
  {
  }

  /** One more child for the superior token, if there is one. */
  function Bump(toks: seq<Token>, super: int): (r: seq<Token>)
    requires -1 <= super < |toks|
    ensures |r| == |toks|
    ensures forall i :: 0 <= i < |r| ==> r[i] == toks[i].(size := r[i].size)
    ensures forall i :: 0 <= i < |r| ==> r[i].size == toks[i].size + (if i == super then 1 else 0)
  {
    if super == -1 then toks else toks[super := toks[super].(size := toks[super].size + 1)]
  }

  // ----- one lexeme -----

  /** A failing step changes nothing: `pos` is rolled back and no token is taken. */
  datatype StepResult = Next(s: State) | Fail(o: Outcome)

  predicate InRange(s: State) {
    -1 <= s.super < |s.toks|
  }

  function AddLeaf(cap: nat, s: State, t: Token, next: nat): (r: StepResult)
    requires InRange(s)
  {
    if |s.toks| >= cap then Fail(NoMem)
    else Next(State(next, Bump(s.toks, s.super) + [t], s.super))
  }

  function OpenStep(cap: nat, s: State, typ: TokenType): (r: StepResult)
    requires InRange(s)
  {
    if |s.toks| >= cap then Fail(NoMem)
    else Next(State(s.pos + 1, Bump(s.toks, s.super) + [Token(typ, s.pos, -1, 0)], |s.toks|))
  }

  function CloseStep(s: State, typ: TokenType): (r: StepResult)
    requires InRange(s)
  {
    var i := LastOpen(s.toks);
    if i < 0 || s.toks[i].typ != typ then Fail(Inval)
    else Next(State(s.pos + 1, s.toks[i := s.toks[i].(end := s.pos + 1)], LastOpen(s.toks[..i])))
  }

  function CommaStep(s: State): (r: StepResult)
    requires InRange(s)
  {
    var i := LastOpenContainer(s.toks);
    if s.super != -1 && !IsContainer(s.toks[s.super]) && i >= 0
    then Next(s.(pos := s.pos + 1, super := i))
    else Next(s.(pos := s.pos + 1))
  }

  function StringStep(js: string, cap: nat, s: State): (r: StepResult)
    requires InRange(s) && s.pos < |js|
  {
    match ScanString(js, s.pos + 1)
    case Found(q) => AddLeaf(cap, s, Token(String, s.pos + 1, q, 0), q + 1)
    case Unfinished => Fail(Part)
    case Bad => Fail(Inval)
  }

  function PrimitiveStep(js: string, cap: nat, s: State): (r: StepResult)
    requires InRange(s) && s.pos < |js|
  {
    match ScanPrimitive(js, s.pos)
    case Found(q) => AddLeaf(cap, s, Token(Primitive, s.pos, q, 0), q)
    case _ => Fail(Inval)
  }

  /** The lexeme at `s.pos`, with room for `cap` tokens in all. */
  function Step(js: string, cap: nat, s: State): (r: StepResult)
    requires InRange(s) && !AtEnd(js, s.pos)
    ensures r.Next? ==> InRange(r.s) && s.pos < r.s.pos <= |js|
    ensures r.Next? ==> |s.toks| <= |r.s.toks| <= |s.toks| + 1
    ensures r.Next? && |r.s.toks| > |s.toks| ==> |s.toks| < cap
    ensures r.Fail? ==> !r.o.Done?
  {
    var c := js[s.pos];
    if c == '{' || c == '[' then OpenStep(cap, s, OpenType(c))
    else if c == '}' || c == ']' then CloseStep(s, CloseType(c))
    else if c == '\"' then StringStep(js, cap, s)
    else if IsSpace(c) then Next(s.(pos := s.pos + 1))
    else if c == ':' then Next(s.(pos := s.pos + 1, super := |s.toks| - 1))
    else if c == ',' then CommaStep(s)
    else PrimitiveStep(js, cap, s)
  }

  // ----- whole calls -----

  function Finish(toks: seq<Token>): Outcome {
    if LastOpen(toks) >= 0 then Part else Done(|toks|)
  }

  /** A call of the tokenizer from state `s`: the state it leaves and what it returns. */
  function Run(js: string, cap: nat, s: State): (r: (State, Outcome))
    requires InRange(s)
    ensures InRange(r.0) && s.pos <= r.0.pos
    ensures |s.toks| <= |r.0.toks|
    decreases |js| - s.pos
  {
    if AtEnd(js, s.pos) then (s, Finish(s.toks))
    else
      match Step(js, cap, s)
      case Fail(o) => (s, o)
      case Next(s') => Run(js, cap, s')
  }

  // ----- counting without a token array -----

  datatype CountResult = CountNext(pos: nat, n: nat) | CountFail(o: Outcome)

  /** The lexeme at `p` when no token array is given: brackets are not matched. */
  function CountStep(js: string, p: nat, n: nat): (r: CountResult)
    requires !AtEnd(js, p)
    ensures r.CountNext? ==> p < r.pos <= |js| && n <= r.n <= n + 1
    ensures r.CountFail? ==> r.o == Inval || r.o == Part
  {
    var c := js[p];
    if c == '{' || c == '[' then CountNext(p + 1, n + 1)
    else if c == '\"' then
      match ScanString(js, p + 1)
      case Found(q) => CountNext(q + 1, n + 1)
      case Unfinished => CountFail(Part)
      case Bad => CountFail(Inval)
    else if IsDelimiter(c) then CountNext(p + 1, n)
    else
      match ScanPrimitive(js, p)
      case Found(q) => CountNext(q, n + 1)
      case _ => CountFail(Inval)
  }

  function CountRun(js: string, p: nat, n: nat): (r: (nat, Outcome))
    ensures r.1.Done? ==> n <= r.1.count
    decreases |js| - p
  {
    if AtEnd(js, p) then (p, Done(n))
    else
      match CountStep(js, p, n)
      case CountFail(o) => (p, o)
      case CountNext(p', n') => CountRun(js, p', n')
  }
}
