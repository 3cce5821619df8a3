/**
  The tokenizer as the C code runs it: three fields updated step by step, a
  token array filled and patched in place, and positions rolled back on failure.

  Every method is proved against the functions of JsmnSpec.
 */
module JsmnParser {
  import opened JsmnSpec
  import opened Text

  /** What a call may write: the parser, and the token array when there is one. */
  function Footprint(tokens: array?<Token>): set<object> {
    if tokens == null then {} else {tokens}
  }

  class Parser {
    var pos: int
    var toknext: int
    var toksuper: int

    constructor ()
      ensures pos == 0 && toknext == 0 && toksuper == -1
    {
      pos := 0;
      toknext := 0;
      toksuper := -1;
    }

    /**
      The fields agree with the array. Without an array no token may have been made: the
      last scan of a call looks at every token made, whether or not there is an array.
     */
    ghost predicate Valid(tokens: array?<Token>)
      reads this
    {
      && 0 <= pos
      && -1 <= toksuper < toknext
      && (if tokens == null then toknext == 0 else toknext <= tokens.Length)
    }

    ghost function Abs(tokens: array<Token>): (s: State)
      requires Valid(tokens)
      reads this, tokens
      ensures InRange(s)
    {
      State(pos, tokens[..toknext], toksuper)
    }

    /** A fresh unused token, or -1 when the array is full. */
    method AllocToken(tokens: array<Token>, numTokens: nat) returns (tok: int)
      requires Valid(tokens) && numTokens <= tokens.Length
      modifies this`toknext, tokens
      ensures Valid(tokens)
      ensures old(toknext) >= numTokens ==> tok == -1 && toknext == old(toknext) && tokens[..] == old(tokens[..])
      ensures old(toknext) < numTokens ==>
                && tok == old(toknext) && toknext == tok + 1
                && tokens[..tok] == old(tokens[..toknext])
                && tokens[tok].start == tokens[tok].end == -1 && tokens[tok].size == 0
      ensures forall k :: toknext <= k < tokens.Length ==> tokens[k] == old(tokens[k])
    {
      if toknext >= numTokens {
        return -1;
      }
      tok := toknext;
      toknext := toknext + 1;
      tokens[tok] := tokens[tok].(start := -1, end := -1, size := 0);
    }

    method ParsePrimitive(js: string, tokens: array?<Token>, numTokens: nat) returns (r: int)
      requires Valid(tokens) && (tokens != null ==> numTokens <= tokens.Length)
      requires pos < |js| && !AtEnd(js, pos) && !IsDelimiter(js[pos])
      modifies this`pos, this`toknext, Footprint(tokens)
      ensures pos >= old(pos) && Valid(tokens)
      ensures tokens == null ==>
                var scan := ScanPrimitive(js, old(pos));
                if scan.Bad? then r == Code(Inval) && pos == old(pos) else r == 0 && pos == scan.end - 1
      ensures tokens != null ==>
                var scan := ScanPrimitive(js, old(pos));
                if scan.Bad? then r == Code(Inval) && Abs(tokens) == old(Abs(tokens))
                else if old(toknext) >= numTokens then r == Code(NoMem) && Abs(tokens) == old(Abs(tokens))
                else r == 0 && pos == scan.end - 1 && toknext == old(toknext) + 1
                     && tokens[..toknext] == old(tokens[..toknext]) + [Token(Primitive, old(pos), scan.end, 0)]
      ensures tokens != null ==> forall k :: toknext <= k < tokens.Length ==> tokens[k] == old(tokens[k])
    {
      var start := pos;
      while pos < |js| && js[pos] != '\0'
        modifies this`pos
        invariant start <= pos <= |js|
        invariant ScanPrimitive(js, pos) == ScanPrimitive(js, start)
      {
        if IsDelimiter(js[pos]) {
          break;
        }
        if js[pos] as int < 32 || js[pos] as int >= 127 {
          pos := start;
          return -2;
        }
        pos := pos + 1;
      }
      if tokens == null {
        pos := pos - 1;
        return 0;
      }
      var token := AllocToken(tokens, numTokens);
      if token == -1 {
        pos := start;
        assert tokens[..toknext] == old(tokens[..toknext]);
        return -1;
      }
      tokens[token] := Token(Primitive, start, pos, 0);
      pos := pos - 1;
      return 0;
    }

    /** The digits of a `\u` escape: stops after four, at the end, or at another character. */
    method SkipHex(js: string) returns (ok: bool)
      requires 0 <= pos <= |js|
      modifies this`pos
      ensures old(pos) <= pos <= |js|
      ensures match ScanHex(js, old(pos), 4)
              case Found(h) => ok && pos == h
              case _ => !ok
    {
      var i := 0;
      while i < 4 && pos < |js| && js[pos] != '\0'
        invariant 0 <= i <= 4 && old(pos) <= pos <= |js|
        invariant ScanHex(js, pos, 4 - i) == ScanHex(js, old(pos), 4)
      {
        if !IsHex(js[pos]) {
          return false;
        }
        pos := pos + 1;
        i := i + 1;
      }
      ok := true;
    }

    /** The escape after a backslash, up to its last character. */
    method SkipEscape(js: string) returns (ok: bool)
      requires 0 <= pos < |js| - 1 && js[pos] == '\\'
      modifies this`pos
      ensures ok ==> old(pos) < pos < |js| && ScanString(js, pos + 1) == ScanString(js, old(pos))
      ensures !ok ==> ScanString(js, old(pos)).Bad?
    {
      pos := pos + 1;
      if js[pos] == 'u' {
        pos := pos + 1;
        ok := SkipHex(js);
        if ok {
          pos := pos - 1;
        }
      } else {
        ok := IsSimpleEscape(js[pos]);
      }
    }

    method ParseString(js: string, tokens: array?<Token>, numTokens: nat) returns (r: int)
      requires Valid(tokens) && (tokens != null ==> numTokens <= tokens.Length)
      requires pos < |js|
      modifies this`pos, this`toknext, Footprint(tokens)
      ensures pos >= old(pos) && Valid(tokens)
      ensures tokens == null ==>
                match ScanString(js, old(pos) + 1)
                case Found(q) => r == 0 && pos == q
                case Unfinished => r == Code(Part) && pos == old(pos)
                case Bad => r == Code(Inval) && pos == old(pos)
      ensures tokens != null ==>
                match ScanString(js, old(pos) + 1)
                case Found(q) =>
                  if old(toknext) >= numTokens
                  then r == Code(NoMem) && Abs(tokens) == old(Abs(tokens))
                  else r == 0 && pos == q && toknext == old(toknext) + 1
                       && tokens[..toknext] == old(tokens[..toknext]) + [Token(String, old(pos) + 1, q, 0)]
                case Unfinished => r == Code(Part) && Abs(tokens) == old(Abs(tokens))
                case Bad => r == Code(Inval) && Abs(tokens) == old(Abs(tokens))
      ensures tokens != null ==> forall k :: toknext <= k < tokens.Length ==> tokens[k] == old(tokens[k])
    {
      var start := pos;
      pos := pos + 1;
      while pos < |js| && js[pos] != '\0'
        invariant start < pos <= |js|
        invariant toknext == old(toknext) && (tokens != null ==> tokens[..] == old(tokens[..]))
        invariant ScanString(js, pos) == ScanString(js, start + 1)
      {
        var c := js[pos];
        if c == '\"' {
          if tokens == null {
            return 0;
          }
          var token := AllocToken(tokens, numTokens);
          if token == -1 {
            pos := start;
            assert tokens[..toknext] == old(tokens[..toknext]);
            return -1;
          }
          tokens[token] := Token(String, start + 1, pos, 0);
          return 0;
        }
        if c == '\\' && pos + 1 < |js| {
          var ok := SkipEscape(js);
          if !ok {
            pos := start;
            return -2;
          }
        }
        pos := pos + 1;
      }
      pos := start;
      return -3;
    }

    /** A leaf was appended to `before`: its superior, if any, gains a child. */
    method BumpSuper(ghost before: seq<Token>, tokens: array<Token>)
      requires Valid(tokens) && toknext == |before| + 1 && toksuper < |before|
      requires tokens[..|before|] == before
      modifies tokens
      ensures tokens[..toknext] == Bump(before, toksuper) + [old(tokens[|before|])]
      ensures forall k :: toknext <= k < tokens.Length ==> tokens[k] == old(tokens[k])
    {
      if toksuper != -1 {
        tokens[toksuper] := tokens[toksuper].(size := tokens[toksuper].size + 1);
      }
      assert tokens[..toknext] == tokens[..|before|] + [tokens[|before|]];
    }

    /** The `{` and `[` case of the switch. */
    method OpenContainer(c: char, tokens: array<Token>, numTokens: nat) returns (r: int)
      requires Valid(tokens) && numTokens <= tokens.Length
      modifies this`toknext, this`toksuper, tokens
      ensures Valid(tokens)
      ensures match OpenStep(numTokens, old(Abs(tokens)), OpenType(c))
              case Fail(o) => r == Code(o) && Abs(tokens) == old(Abs(tokens))
              case Next(s) => r == 0 && pos + 1 == s.pos && Abs(tokens) == s.(pos := pos)
      ensures r == 0 ==> toknext == old(toknext) + 1
      ensures forall k :: toknext <= k < tokens.Length ==> tokens[k] == old(tokens[k])
    {
      var token := AllocToken(tokens, numTokens);
      if token == -1 {
        assert tokens[..toknext] == old(tokens[..toknext]);
        return -1;
      }
      assert tokens[..token] == old(tokens[..toknext]);
      if toksuper != -1 {
        tokens[toksuper] := tokens[toksuper].(size := tokens[toksuper].size + 1);
      }
      assert tokens[..token] == Bump(old(tokens[..toknext]), old(toksuper));
      tokens[token] := tokens[token].(typ := if c == '{' then Object else Array);
      tokens[token] := tokens[token].(start := pos);
      toksuper := toknext - 1;
      return 0;
    }

    /** A backward scan for an open token below index `hi`; -1 when there is none. */
    method ScanOpen(tokens: array<Token>, hi: int) returns (i: int)
      requires Valid(tokens) && 0 <= hi <= toknext
      ensures i == LastOpen(tokens[..hi])
    {
      i := hi - 1;
      while i >= 0
        invariant -1 <= i < hi
        invariant forall j :: i < j < hi ==> !IsOpen(tokens[j])
      {
        if tokens[i].start != -1 && tokens[i].end == -1 {
          break;
        }
        i := i - 1;
      }
      LastOpenIs(tokens[..hi], i);
    }

    /** The `}` and `]` case: close the innermost open token, then find the one around it. */
    method CloseContainer(c: char, tokens: array<Token>) returns (r: int)
      requires Valid(tokens)
      modifies this`toksuper, tokens
      ensures Valid(tokens)
      ensures match CloseStep(old(Abs(tokens)), CloseType(c))
              case Fail(o) => r == Code(o) && Abs(tokens) == old(Abs(tokens))
              case Next(s) => r == 0 && pos + 1 == s.pos && Abs(tokens) == s.(pos := pos)
      ensures forall k :: toknext <= k < tokens.Length ==> tokens[k] == old(tokens[k])
    {
      var typ := if c == '}' then Object else Array;
      ghost var was := tokens[..toknext];
      var i := ScanOpen(tokens, toknext);
      if i < 0 {
        return -2;
      }
      if tokens[i].typ != typ {
        return -2;
      }
      toksuper := -1;
      tokens[i] := tokens[i].(end := pos + 1);
      assert tokens[..toknext] == was[i := was[i].(end := pos + 1)];
      assert tokens[..i] == was[..i];
      var outer := ScanOpen(tokens, i);
      if outer >= 0 {
        toksuper := outer;
      }
      return 0;
    }

    /** The `,` case: after a key or a leaf, go back to the enclosing container. */
    method Comma(tokens: array<Token>)
      requires Valid(tokens)
      modifies this`toksuper
      ensures Valid(tokens)
      ensures Next(Abs(tokens).(pos := pos + 1)) == CommaStep(old(Abs(tokens)))
    {
      if toksuper != -1 && tokens[toksuper].typ != Array && tokens[toksuper].typ != Object {
        var i := toknext - 1;
        while i >= 0
          modifies {}
          invariant -1 <= i < toknext
          invariant forall j :: i < j < toknext ==> !(IsOpen(tokens[j]) && IsContainer(tokens[j]))
        {
          if tokens[i].typ == Array || tokens[i].typ == Object {
            if tokens[i].start != -1 && tokens[i].end == -1 {
              break;
            }
          }
          i := i - 1;
        }
        LastOpenContainerIs(tokens[..toknext], i);
        if i >= 0 {
          toksuper := i;
        }
      }
    }

    /** The string case: scan, take a token, and count it for its superior. */
    method StringCase(js: string, tokens: array<Token>, numTokens: nat) returns (r: int)
      requires Valid(tokens) && numTokens <= tokens.Length && pos < |js|
      modifies this`pos, this`toknext, tokens
      ensures Valid(tokens)
      ensures match StringStep(js, numTokens, old(Abs(tokens)))
              case Fail(o) => r == Code(o) && Abs(tokens) == old(Abs(tokens))
              case Next(s) => r == 0 && pos + 1 == s.pos && Abs(tokens) == s.(pos := pos)
      ensures r == 0 ==> toknext == old(toknext) + 1
      ensures forall k :: toknext <= k < tokens.Length ==> tokens[k] == old(tokens[k])
    {
      r := ParseString(js, tokens, numTokens);
      if r == 0 {
        BumpSuper(old(tokens[..toknext]), tokens);
      }
    }

    /** The default case: scan, take a token, and count it for its superior. */
    method PrimitiveCase(js: string, tokens: array<Token>, numTokens: nat) returns (r: int)
      requires Valid(tokens) && numTokens <= tokens.Length
      requires pos < |js| && !AtEnd(js, pos) && !IsDelimiter(js[pos])
      modifies this`pos, this`toknext, tokens
      ensures Valid(tokens)
      ensures match PrimitiveStep(js, numTokens, old(Abs(tokens)))
              case Fail(o) => r == Code(o) && Abs(tokens) == old(Abs(tokens))
              case Next(s) => r == 0 && pos + 1 == s.pos && Abs(tokens) == s.(pos := pos)
      ensures r == 0 ==> toknext == old(toknext) + 1
      ensures forall k :: toknext <= k < tokens.Length ==> tokens[k] == old(tokens[k])
    {
      r := ParsePrimitive(js, tokens, numTokens);
      if r == 0 {
        BumpSuper(old(tokens[..toknext]), tokens);
      }
    }

    /** The switch: one lexeme, and the number of tokens counted so far. */
    method Lexeme(js: string, tokens: array<Token>, numTokens: nat, before: int) returns (r: int, count: int)
      requires Valid(tokens) && numTokens <= tokens.Length
      requires pos < |js| && js[pos] != '\0'
      modifies this, tokens
      ensures Valid(tokens)
      ensures match Step(js, numTokens, old(Abs(tokens)))
              case Fail(o) => r == Code(o) && Abs(tokens) == old(Abs(tokens))
              case Next(s) => r == 0 && pos + 1 == s.pos && Abs(tokens) == s.(pos := pos)
      ensures r == 0 ==> count - before == toknext - old(toknext)
      ensures forall k :: toknext <= k < tokens.Length ==> tokens[k] == old(tokens[k])
    {
      hide OpenStep;
      hide CloseStep;
      hide CommaStep;
      hide StringStep;
      hide PrimitiveStep;
      r, count := 0, before;
      var c := js[pos];
      if c == '{' || c == '[' {
        count := count + 1;
        r := OpenContainer(c, tokens, numTokens);
      } else if c == '}' || c == ']' {
        r := CloseContainer(c, tokens);
      } else if c == '\"' {
        r := StringCase(js, tokens, numTokens);
        count := count + 1;
      } else if c == '\t' || c == '\r' || c == '\n' || c == ' ' {
      } else if c == ':' {
        toksuper := toknext - 1;
      } else if c == ',' {
        Comma(tokens);
      } else {
        r := PrimitiveCase(js, tokens, numTokens);
        count := count + 1;
      }
    }

    /** A call with a token array does exactly what `Run` says, from whatever state it finds. */
    method ParseInto(js: string, tokens: array<Token>, numTokens: nat) returns (r: int)
      requires Valid(tokens) && numTokens <= tokens.Length
      modifies this, tokens
      ensures Valid(tokens)
      ensures (Abs(tokens), r) == (Run(js, numTokens, old(Abs(tokens))).0, Code(Run(js, numTokens, old(Abs(tokens))).1))
      ensures forall k :: toknext <= k < tokens.Length ==> tokens[k] == old(tokens[k])
    {
      hide Step;
      hide LastOpen;
      var count := toknext;
      ghost var call := Run(js, numTokens, Abs(tokens));
      while pos < |js| && js[pos] != '\0'
        invariant Valid(tokens) && count == toknext
        invariant Run(js, numTokens, Abs(tokens)) == call
        invariant forall k :: toknext <= k < tokens.Length ==> tokens[k] == old(tokens[k])
        decreases |js| - pos
      {
        ghost var step := Step(js, numTokens, Abs(tokens));
        r, count := Lexeme(js, tokens, numTokens, count);
        if r < 0 {
          return;
        }
        pos := pos + 1;
        assert step == Next(Abs(tokens));
      }
      var open := ScanOpen(tokens, toknext);
      if open >= 0 {
        return -3;
      }
      return count;
    }

    /** A call without a token array counts tokens and leaves the other fields fresh. */
    method ParseCount(js: string) returns (r: int)
      requires Valid(null)
      modifies this
      ensures Valid(null)
      ensures (pos, r) == (CountRun(js, old(pos), 0).0, Code(CountRun(js, old(pos), 0).1))
    {
      var count := toknext;
      ghost var call := CountRun(js, pos, 0);
      while pos < |js| && js[pos] != '\0'
        invariant Valid(null) && 0 <= count
        invariant CountRun(js, pos, count) == call
        decreases |js| - pos
      {
        ghost var step := CountStep(js, pos, count);
        var c := js[pos];
        if c == '{' || c == '[' {
          count := count + 1;
        } else if c == '}' || c == ']' {
        } else if c == '\"' {
          r := ParseString(js, null, 0);
          if r < 0 {
            return;
          }
          count := count + 1;
        } else if c == '\t' || c == '\r' || c == '\n' || c == ' ' {
        } else if c == ':' {
          toksuper := toknext - 1;
        } else if c == ',' {
        } else {
          r := ParsePrimitive(js, null, 0);
          if r < 0 {
            return;
          }
          count := count + 1;
        }
        pos := pos + 1;
        assert step == CountNext(pos, count);
      }
      return count;
    }
  }

  /** The entry point: fill mode when an array is given, count mode when it is not. */
  method Parse(parser: Parser, js: string, tokens: array?<Token>, numTokens: nat) returns (r: int)
    requires parser.Valid(tokens) && (tokens != null ==> numTokens <= tokens.Length)
    modifies parser, Footprint(tokens)
    ensures parser.Valid(tokens)
    ensures tokens != null ==>
              var call := Run(js, numTokens, old(parser.Abs(tokens)));
              parser.Abs(tokens) == call.0 && r == Code(call.1)
    ensures tokens == null ==>
              var call := CountRun(js, old(parser.pos), 0);
              parser.pos == call.0 && r == Code(call.1)
  {
    if tokens == null {
      r := parser.ParseCount(js);
    } else {
      r := parser.ParseInto(js, tokens, numTokens);
    }
  }
}
