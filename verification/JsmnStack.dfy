/**
  The tokenizer keeps no stack: it finds the open containers by scanning the token
  array backwards. Here that array is shown to be a faithful stack, and the three
  possible answers of a call are characterised without mentioning tokens at all.
 */
module JsmnStack {
  import opened JsmnSpec
  import opened Text
  import opened JsmnResume
  import opened JsmnSpans
  import opened JsmnCount

  // ----- the explicit stack -----

  /** The types of the open tokens, outermost first. */
  function OpenTypes(toks: seq<Token>): seq<TokenType> {
    if toks == [] then []
    else OpenTypes(toks[..|toks| - 1]) + (if IsOpen(toks[|toks| - 1]) then [toks[|toks| - 1].typ] else [])
  }

  /** What a tokenizer with an explicit stack answers, from position `p` with `n` tokens made. */
  function StackRun(js: string, p: nat, stack: seq<TokenType>, n: nat): Outcome
    decreases |js| - p
  {
    if AtEnd(js, p) then (if stack == [] then Done(n) else Part)
    else
      var c := js[p];
      if c == '{' || c == '[' then StackRun(js, p + 1, stack + [OpenType(c)], n + 1)
      else if c == '}' || c == ']' then
        if stack == [] || stack[|stack| - 1] != CloseType(c) then Inval
        else StackRun(js, p + 1, stack[..|stack| - 1], n)
      else if c == '\"' then
        match ScanString(js, p + 1)
        case Found(q) => StackRun(js, q + 1, stack, n + 1)
        case Unfinished => Part
        case Bad => Inval
      else if IsDelimiter(c) then StackRun(js, p + 1, stack, n)
      else
        match ScanPrimitive(js, p)
        case Found(q) => StackRun(js, q, stack, n + 1)
        case _ => Inval
  }

  /** What the stack machine answers when it takes over from the tokenizer. */
  function StackAnswer(js: string, s: State): Outcome {
    StackRun(js, s.pos, OpenTypes(s.toks), |s.toks|)
  }

  /** The innermost open token, when there is one, carries the top of the stack. */
  lemma {:induction false} LastOpenIsTop(toks: seq<Token>)
    ensures LastOpen(toks) < 0 <==> OpenTypes(toks) == []
    ensures LastOpen(toks) >= 0 ==>
              OpenTypes(toks) == OpenTypes(toks[..LastOpen(toks)]) + [toks[LastOpen(toks)].typ]
    decreases |toks|
  {
    if toks != [] && !IsOpen(toks[|toks| - 1]) {
      var init := toks[..|toks| - 1];
      LastOpenIsTop(init);
      if LastOpen(init) >= 0 {
        assert toks[..LastOpen(init)] == init[..LastOpen(init)];
      }
    }
  }

  /** Only what is open matters. */
  lemma {:induction false} OpenTypesSame(a: seq<Token>, b: seq<Token>)
    requires |a| == |b| && forall i :: 0 <= i < |a| ==> IsOpen(a[i]) == IsOpen(b[i]) && a[i].typ == b[i].typ
    ensures OpenTypes(a) == OpenTypes(b)
    decreases |a|
  {
    if a != [] {
      OpenTypesSame(a[..|a| - 1], b[..|b| - 1]);
    }
  }

  lemma AppendPushes(s: State, t: Token)
    requires InRange(s)
    ensures OpenTypes(Bump(s.toks, s.super) + [t]) == if IsOpen(t) then OpenTypes(s.toks) + [t.typ] else OpenTypes(s.toks)
  {
    var b := Bump(s.toks, s.super);
    assert (b + [t])[..|b|] == b;
    OpenTypesSame(b, s.toks);
  }

  /** Closing the innermost open token pops. */
  lemma {:induction false} ClosePops(toks: seq<Token>, i: nat, end: nat)
    requires i < |toks| && LastOpen(toks) == i
    ensures OpenTypes(toks[i := toks[i].(end := end)]) == OpenTypes(toks[..i])
    decreases |toks|
  {
    var closed := toks[i := toks[i].(end := end)];
    var n := |toks| - 1;
    if i == n {
      assert closed[..n] == toks[..n];
    } else {
      assert closed[..n] == toks[..n][i := toks[i].(end := end)];
      assert toks[..i] == toks[..n][..i];
      ClosePops(toks[..n], i, end);
    }
  }

  /** After a closing bracket the superior token is the new top of the stack. */
  lemma CloseFindsEnclosing(s: State, typ: TokenType)
    requires InRange(s) && CloseStep(s, typ).Next?
    ensures CloseStep(s, typ).s.super == LastOpen(CloseStep(s, typ).s.toks)
  {
    var i := LastOpen(s.toks);
    var outer := LastOpen(s.toks[..i]);
    var toks' := CloseStep(s, typ).s.toks;
    assert outer >= 0 ==> toks'[outer] == s.toks[..i][outer];
    forall j | outer < j < |toks'|
      ensures !IsOpen(toks'[j])
    {
      if j < i {
        assert toks'[j] == s.toks[..i][j];
      }
    }
    LastOpenIs(toks', outer);
  }

  lemma LeafKeepsStack(cap: nat, s: State, t: Token, next: nat)
    requires InRange(s) && AddLeaf(cap, s, t, next).Next? && !IsOpen(t)
    ensures OpenTypes(AddLeaf(cap, s, t, next).s.toks) == OpenTypes(s.toks)
  {
    AppendPushes(s, t);
  }

  lemma OpenSimulates(js: string, cap: nat, s: State)
    requires InRange(s) && !AtEnd(js, s.pos) && js[s.pos] in "{["
    requires OpenStep(cap, s, OpenType(js[s.pos])).Next?
    ensures StackAnswer(js, s) == StackAnswer(js, OpenStep(cap, s, OpenType(js[s.pos])).s)
  {
    hide OpenTypes;
    hide Bump;
    AppendPushes(s, Token(OpenType(js[s.pos]), s.pos, -1, 0));
  }

  lemma CloseSimulates(js: string, s: State)
    requires InRange(s) && !AtEnd(js, s.pos) && js[s.pos] in "}]"
    ensures var r := CloseStep(s, CloseType(js[s.pos]));
            if r.Next? then StackAnswer(js, s) == StackAnswer(js, r.s) else StackAnswer(js, s) == Inval
  {
    hide OpenTypes;
    hide LastOpen;
    var typ := CloseType(js[s.pos]);
    var i := LastOpen(s.toks);
    LastOpenIsTop(s.toks);
    if i >= 0 {
      var outer := OpenTypes(s.toks[..i]);
      assert (outer + [s.toks[i].typ])[..|outer|] == outer;
      if s.toks[i].typ == typ {
        ClosePops(s.toks, i, s.pos + 1);
      }
    }
  }

  lemma OpenFails(cap: nat, s: State, typ: TokenType)
    requires InRange(s)
    ensures OpenStep(cap, s, typ).Fail? ==> OpenStep(cap, s, typ).o == NoMem
  {
  }

  lemma CloseFails(s: State, typ: TokenType)
    requires InRange(s)
    ensures CloseStep(s, typ).Fail? ==> CloseStep(s, typ).o == Inval
  {
    hide LastOpen;
  }

  /** One lexeme of the tokenizer is one lexeme of the stack machine. */
  lemma StepSimulates(js: string, cap: nat, s: State)
    requires InRange(s) && !AtEnd(js, s.pos)
    ensures Step(js, cap, s).Next? ==> StackAnswer(js, s) == StackAnswer(js, Step(js, cap, s).s)
    ensures Step(js, cap, s).Fail? && Step(js, cap, s).o != NoMem ==> StackAnswer(js, s) == Step(js, cap, s).o
  {
    hide OpenStep;
    hide CloseStep;
    hide OpenTypes;
    var c := js[s.pos];
    if c in "{[" {
      if Step(js, cap, s).Next? {
        OpenSimulates(js, cap, s);
      } else {
        OpenFails(cap, s, OpenType(c));
      }
    } else if c in "}]" {
      CloseSimulates(js, s);
      CloseFails(s, CloseType(c));
    } else if c == '\"' {
      if Step(js, cap, s).Next? {
        var q := ScanString(js, s.pos + 1).end;
        LeafKeepsStack(cap, s, Token(String, s.pos + 1, q, 0), q + 1);
      }
    } else if !IsDelimiter(c) {
      if Step(js, cap, s).Next? {
        var q := ScanPrimitive(js, s.pos).end;
        LeafKeepsStack(cap, s, Token(Primitive, s.pos, q, 0), q);
      }
    }
  }

  /** Whatever the text, the answer is that of the stack machine, unless the tokens ran out. */
  lemma {:induction false} RunIsStackRun(js: string, cap: nat, s: State)
    requires InRange(s)
    ensures Run(js, cap, s).1 == NoMem || Run(js, cap, s).1 == StackAnswer(js, s)
    decreases |js| - s.pos
  {
    if AtEnd(js, s.pos) {
      LastOpenIsTop(s.toks);
    } else {
      StepSimulates(js, cap, s);
      if Step(js, cap, s).Next? {
        RunIsStackRun(js, cap, Step(js, cap, s).s);
      }
    }
  }

  /** As many tokens as characters are always enough. */
  lemma {:induction false} OneTokenPerChar(js: string, cap: nat, s: State)
    requires InRange(s) && |s.toks| <= s.pos && |js| <= cap
    ensures Run(js, cap, s).1 != NoMem
    decreases |js| - s.pos
  {
    if !AtEnd(js, s.pos) && Step(js, cap, s).Next? {
      OneTokenPerChar(js, cap, Step(js, cap, s).s);
    }
  }

  function Answer(js: string): Outcome {
    Run(js, |js|, Fresh).1
  }

  predicate Accepts(js: string) {
    Answer(js).Done?
  }

  lemma AnswerIsStackRun(js: string)
    ensures Answer(js) == StackRun(js, 0, [], 0)
  {
    RunIsStackRun(js, |js|, Fresh);
    OneTokenPerChar(js, |js|, Fresh);
  }

  // ----- well-matched words -----

  datatype Bracket = Open(typ: TokenType) | Close(typ: TokenType)

  datatype Word = NoWord | Word(w: seq<Bracket>)

  /** The brackets outside strings and primitives, if every lexeme scans. */
  function BracketWord(js: string, p: nat): Word
    decreases |js| - p
  {
    if AtEnd(js, p) then Word([])
    else
      var c := js[p];
      if c == '{' || c == '[' then Prepend(Open(OpenType(c)), BracketWord(js, p + 1))
      else if c == '}' || c == ']' then Prepend(Close(CloseType(c)), BracketWord(js, p + 1))
      else if c == '\"' then
        var r := ScanString(js, p + 1);
        if r.Found? then BracketWord(js, r.end + 1) else NoWord
      else if IsDelimiter(c) then BracketWord(js, p + 1)
      else
        var r := ScanPrimitive(js, p);
        if r.Found? then BracketWord(js, r.end) else NoWord
  }

  function Prepend(b: Bracket, w: Word): Word {
    if w == NoWord then NoWord else Word([b] + w.w)
  }

  /** The words of matched brackets, as a grammar: nothing, or a bracketed word and another word. */
  datatype Nest = Nothing | Wrap(typ: TokenType, inner: Nest, rest: Nest)

  function Spell(n: Nest): seq<Bracket> {
    match n
    case Nothing => []
    case Wrap(t, inner, rest) => [Open(t)] + Spell(inner) + [Close(t)] + Spell(rest)
  }

  ghost predicate WellMatched(w: seq<Bracket>) {
    exists n: Nest :: Spell(n) == w
  }

  /** Reading a word with a stack. */
  predicate Checks(w: seq<Bracket>, stack: seq<TokenType>) {
    if w == [] then stack == []
    else
      match w[0]
      case Open(t) => Checks(w[1..], stack + [t])
      case Close(t) => stack != [] && stack[|stack| - 1] == t && Checks(w[1..], stack[..|stack| - 1])
  }

  lemma {:induction false} StackRunChecks(js: string, p: nat, stack: seq<TokenType>, n: nat)
    ensures StackRun(js, p, stack, n).Done? <==>
            BracketWord(js, p) != NoWord && Checks(BracketWord(js, p).w, stack)
    decreases |js| - p
  {
    if !AtEnd(js, p) {
      var c := js[p];
      if c == '{' || c == '[' {
        StackRunChecks(js, p + 1, stack + [OpenType(c)], n + 1);
      } else if c == '}' || c == ']' {
        if stack != [] {
          StackRunChecks(js, p + 1, stack[..|stack| - 1], n);
        }
      } else if c == '\"' {
        if ScanString(js, p + 1).Found? {
          StackRunChecks(js, ScanString(js, p + 1).end + 1, stack, n + 1);
        }
      } else if IsDelimiter(c) {
        StackRunChecks(js, p + 1, stack, n);
      } else if ScanPrimitive(js, p).Found? {
        StackRunChecks(js, ScanPrimitive(js, p).end, stack, n + 1);
      }
    }
  }

  /** A spelled word leaves the stack as it was. */
  lemma {:induction false} SpellChecks(n: Nest, w: seq<Bracket>, stack: seq<TokenType>)
    ensures Checks(Spell(n) + w, stack) == Checks(w, stack)
    decreases n
  {
    match n
    case Nothing =>
      assert Spell(n) + w == w;
    case Wrap(t, inner, rest) =>
      var tail := [Close(t)] + (Spell(rest) + w);
      assert Spell(n) + w == [Open(t)] + (Spell(inner) + tail);
      assert (stack + [t])[..|stack|] == stack;
      SpellChecks(inner, tail, stack + [t]);
      SpellChecks(rest, w, stack);
  }

  /** A word that checks starts with a spelled word, up to the closing of the top of the stack. */
  lemma {:induction false} ChecksSpells(w: seq<Bracket>, stack: seq<TokenType>) returns (n: Nest, rest: seq<Bracket>)
    requires Checks(w, stack)
    ensures w == Spell(n) + rest && Checks(rest, stack)
    ensures rest == [] || rest[0].Close?
    decreases |w|
  {
    if w == [] || w[0].Close? {
      n, rest := Nothing, w;
    } else {
      var t := w[0].typ;
      var inner, tail := ChecksSpells(w[1..], stack + [t]);
      CloseTop(tail, stack, t);
      var next;
      next, rest := ChecksSpells(tail[1..], stack);
      n := Wrap(t, inner, next);
      WrapSpells(w, inner, tail, next, rest);
    }
  }

  lemma CloseTop(tail: seq<Bracket>, stack: seq<TokenType>, t: TokenType)
    requires Checks(tail, stack + [t]) && (tail == [] || tail[0].Close?)
    ensures tail != [] && tail[0] == Close(t) && Checks(tail[1..], stack)
  {
    assert (stack + [t])[..|stack|] == stack;
  }

  lemma WrapSpells(w: seq<Bracket>, inner: Nest, tail: seq<Bracket>, next: Nest, rest: seq<Bracket>)
    requires w != [] && w[0].Open? && w[1..] == Spell(inner) + tail
    requires tail != [] && tail[0] == Close(w[0].typ) && tail[1..] == Spell(next) + rest
    ensures w == Spell(Wrap(w[0].typ, inner, next)) + rest
  {
    var x, y := Spell(inner), Spell(next);
    assert Spell(Wrap(w[0].typ, inner, next)) == [w[0]] + x + [tail[0]] + y;
    hide Spell;
    assert tail == [tail[0]] + tail[1..];
    assert w == [w[0]] + w[1..];
    Regroup([w[0]], x, [tail[0]], y, rest);
  }

  lemma Regroup(a: seq<Bracket>, b: seq<Bracket>, c: seq<Bracket>, d: seq<Bracket>, e: seq<Bracket>)
    ensures a + (b + (c + (d + e))) == a + b + c + d + e
  {
  }

  lemma ChecksIsWellMatched(w: seq<Bracket>)
    ensures Checks(w, []) <==> WellMatched(w)
  {
    if Checks(w, []) {
      var n, rest := ChecksSpells(w, []);
      assert Spell(n) == w;
    }
    if WellMatched(w) {
      var n :| Spell(n) == w;
      SpellChecks(n, [], []);
      assert w + [] == w;
    }
  }

  /**
    A text is accepted exactly when every lexeme scans, the brackets outside strings and
    primitives form a well-matched word, and there are as many tokens as count mode says.
   */
  lemma AcceptsExactlyWellMatched(js: string, cap: nat)
    ensures Run(js, cap, Fresh).1.Done? <==>
            && BracketWord(js, 0) != NoWord && WellMatched(BracketWord(js, 0).w)
            && CountRun(js, 0, 0).1.Done? && CountRun(js, 0, 0).1.count <= cap
  {
    StackRunChecks(js, 0, [], 0);
    if BracketWord(js, 0) != NoWord {
      ChecksIsWellMatched(BracketWord(js, 0).w);
    }
    AnswerIsStackRun(js);
    RunIsStackRun(js, cap, Fresh);
    if Run(js, cap, Fresh).1.Done? {
      FillSuccessIsCounted(js, cap);
      DoneIsFinished(js, cap, Fresh);
      NoMemMeansFull(js, cap, Fresh);
    } else if CountRun(js, 0, 0).1.Done? && CountRun(js, 0, 0).1.count <= cap {
      CountedSizeSuffices(js, cap);
    }
  }

  /** Count mode succeeds exactly when every lexeme scans, whatever the brackets are. */
  lemma {:induction false} CountsLexemes(js: string, p: nat, n: nat)
    ensures CountRun(js, p, n).1.Done? <==> BracketWord(js, p) != NoWord
    decreases |js| - p
  {
    if !AtEnd(js, p) && CountStep(js, p, n).CountNext? {
      CountsLexemes(js, CountStep(js, p, n).pos, CountStep(js, p, n).n);
    }
  }
}
