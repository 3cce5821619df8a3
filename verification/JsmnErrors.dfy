/**
  The two error answers mean what they say. INVAL: no continuation of the text is
  acceptable. PART: the text is not complete, but some continuation of it is.
 */
module JsmnErrors {
  import opened JsmnSpec
  import opened Text
  import opened JsmnResume
  import opened JsmnStack

  // ----- INVAL is for ever -----

  lemma InvalidStepLonger(a: string, js: string, cap: nat, more: nat, s: State)
    requires a <= js && cap <= more && InRange(s) && !AtEnd(a, s.pos)
    requires Step(a, cap, s) == Fail(Inval)
    ensures Step(js, more, s) == Fail(Inval)
  {
    var c := a[s.pos];
    assert js[s.pos] == c;
    if c == '\"' {
      ScanStringLonger(a, js, s.pos + 1);
    } else if c != '{' && c != '[' && !IsDelimiter(c) {
      ScanPrimitiveLonger(a, js, s.pos);
    }
  }

  lemma {:induction false} InvalidForEver(a: string, js: string, cap: nat, more: nat, s: State)
    requires a <= js && cap <= more && InRange(s) && Run(a, cap, s).1 == Inval
    ensures Run(js, more, s).1 == Inval
    decreases |a| - s.pos
  {
    match Step(a, cap, s)
    case Fail(_) => InvalidStepLonger(a, js, cap, more, s);
    case Next(s') =>
      if |s'.toks| > |s.toks| {
        LastTokenBeforeCut(a, cap, s);
      }
      StepLonger(a, js, cap, more, s);
      InvalidForEver(a, js, cap, more, s');
  }

  // ----- PART can be completed -----

  predicate NulFree(js: string) {
    forall i :: 0 <= i < |js| ==> js[i] != '\0'
  }

  function Zeros(n: nat): (r: string)
    ensures |r| == n && forall i :: 0 <= i < n ==> r[i] == '0'
  {
    seq(n, _ => '0')
  }

  /** The brackets that close a stack of open containers. */
  function Closers(stack: seq<TokenType>): string {
    if stack == [] then ""
    else [if stack[|stack| - 1] == Object then '}' else ']'] + Closers(stack[..|stack| - 1])
  }

  predicate Containers(stack: seq<TokenType>) {
    forall i :: 0 <= i < |stack| ==> stack[i] == Object || stack[i] == Array
  }

  lemma {:induction false} ClosersClose(js: string, p: nat, stack: seq<TokenType>, n: nat)
    requires p <= |js| && Containers(stack) && js[p..] == Closers(stack)
    ensures StackRun(js, p, stack, n) == Done(n)
    decreases |stack|
  {
    if stack == [] {
      assert |js[p..]| == 0;
    } else {
      assert js[p] == js[p..][0];
      assert js[p + 1..] == js[p..][1..] == Closers(stack[..|stack| - 1]);
      ClosersClose(js, p + 1, stack[..|stack| - 1], n);
    }
  }

  /** A `\u` escape cut short takes zeros for its missing digits. */
  lemma {:induction false} CompleteHex(js: string, p: nat, n: nat) returns (m: nat)
    requires NulFree(js) && p <= |js| && ScanHex(js, p, n) == Found(|js|)
    ensures ScanHex(js + Zeros(m) + "\"", p, n) == Found(|js| + m)
    decreases n
  {
    if n == 0 {
      m := 0;
    } else if p == |js| {
      m := n;
      HexZeros(js + Zeros(m) + "\"", p, n);
    } else {
      m := CompleteHex(js, p + 1, n - 1);
    }
  }

  lemma {:induction false} HexZeros(js: string, p: nat, n: nat)
    requires p + n < |js| && forall i :: p <= i < p + n ==> js[i] == '0'
    ensures ScanHex(js, p, n) == Found(p + n)
    decreases n
  {
    if n > 0 {
      HexZeros(js, p + 1, n - 1);
    }
  }

  /** An unfinished string can be finished, wherever it was cut. */
  lemma {:induction false} CompleteString(js: string, p: nat) returns (ext: string)
    requires NulFree(js) && p <= |js| && ScanString(js, p).Unfinished?
    ensures ext != "" && ScanString(js + ext, p) == Found(|js + ext| - 1)
    decreases |js| - p
  {
    if p == |js| {
      ext := "\"";
    } else if js[p] == '\\' && p + 1 == |js| {
      ext := "\"\"";
      assert ScanString(js + ext, p + 2) == Found(|js| + 1);
    } else if js[p] == '\\' && js[p + 1] == 'u' {
      var h := ScanHex(js, p + 2, 4).end;
      if h == |js| {
        var m := CompleteHex(js, p + 2, 4);
        ext := Zeros(m) + "\"";
        assert js + ext == js + Zeros(m) + "\"";
      } else {
        ext := CompleteString(js, h);
        ScanHexLonger(js, js + ext, p + 2, 4);
      }
    } else if js[p] == '\\' {
      ext := CompleteString(js, p + 2);
    } else {
      ext := CompleteString(js, p + 1);
    }
  }

  lemma {:induction false} Complete(js: string, p: nat, stack: seq<TokenType>, n: nat) returns (ext: string)
    requires NulFree(js) && p <= |js| && Containers(stack) && StackRun(js, p, stack, n) == Part
    ensures StackRun(js + ext, p, stack, n).Done?
    ensures p == |js| ==> ext != "" && IsDelimiter(ext[0])
    decreases |js| - p
  {
    if p == |js| {
      ext := Closers(stack);
      ClosersClose(js + ext, p, stack, n);
      return;
    }
    var c := js[p];
    if c == '{' || c == '[' {
      ext := Complete(js, p + 1, stack + [OpenType(c)], n + 1);
    } else if c == '}' || c == ']' {
      ext := Complete(js, p + 1, stack[..|stack| - 1], n);
    } else if c == '\"' {
      ext := CompleteAfterQuote(js, p, stack, n);
    } else if IsDelimiter(c) {
      ext := Complete(js, p + 1, stack, n);
    } else {
      var q := ScanPrimitive(js, p).end;
      ext := Complete(js, q, stack, n + 1);
      ScanPrimitiveLonger(js, js + ext, p);
    }
  }

  lemma {:induction false} CompleteAfterQuote(js: string, p: nat, stack: seq<TokenType>, n: nat) returns (ext: string)
    requires NulFree(js) && p < |js| && js[p] == '\"' && Containers(stack) && StackRun(js, p, stack, n) == Part
    ensures StackRun(js + ext, p, stack, n).Done?
    decreases |js| - p, 0
  {
    var r := ScanString(js, p + 1);
    if r.Found? {
      ext := Complete(js, r.end + 1, stack, n + 1);
      ScanStringLonger(js, js + ext, p + 1);
    } else {
      var tail := CompleteString(js, p + 1);
      ext := tail + Closers(stack);
      var whole := js + tail;
      assert js + ext == whole + Closers(stack);
      ScanStringLonger(whole, js + ext, p + 1);
      ClosersClose(js + ext, |whole|, stack, n + 1);
    }
  }

  /** What the answers say about the continuations of a text without NULs. */
  lemma ErrorsAreExact(js: string)
    requires NulFree(js)
    ensures Answer(js) == Inval <==> forall ext: string :: !Accepts(js + ext)
    ensures Answer(js) == Part <==> !Accepts(js) && exists ext: string :: Accepts(js + ext)
  {
    AnswerIsStackRun(js);
    assert js + "" == js;
    if Answer(js) == Inval {
      forall ext: string
        ensures !Accepts(js + ext)
      {
        InvalidForEver(js, js + ext, |js|, |js + ext|, Fresh);
      }
    } else if Answer(js) == Part {
      var ext := Complete(js, 0, [], 0);
      AnswerIsStackRun(js + ext);
      assert Accepts(js + ext);
    } else {
      OneTokenPerChar(js, |js|, Fresh);
      assert Accepts(js + "");
    }
  }
}
