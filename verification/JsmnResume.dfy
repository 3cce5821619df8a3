/**
  Resuming. A call that stops early, because the text was incomplete or the
  token array was full, can be continued by another call from the state it left,
  on a longer text and with a larger array. The result is that of a single call,
  unless the first text ended inside an unquoted primitive.
 */
module JsmnResume {
  import opened JsmnSpec
  import opened Text

  /**
    The first text, of length `cut`, stopped inside a primitive of the whole text.
    A caller can test this before the second call, on the tokens it already has.
   */
  predicate SplitsPrimitive(js: string, cut: nat, toks: seq<Token>) {
    && toks != [] && toks[|toks| - 1].typ == Primitive && toks[|toks| - 1].end == cut
    && !AtEnd(js, cut) && !IsDelimiter(js[cut])
  }

  // ----- scanning a longer text -----

  /** A scan that stops before the cut, or at a cut that ends the lexeme anyway, is not changed. */
  lemma {:induction false} ScanPrimitiveLonger(a: string, js: string, p: nat)
    requires a <= js && p <= |a|
    ensures ScanPrimitive(a, p).Bad? ==> ScanPrimitive(js, p).Bad?
    ensures ScanPrimitive(a, p).Found? ==>
              var q := ScanPrimitive(a, p).end;
              if q < |a| || AtEnd(js, q) || IsDelimiter(js[q]) then ScanPrimitive(js, p) == Found(q)
              else ScanPrimitive(js, p).Found? ==> ScanPrimitive(js, p).end > q
    decreases |a| - p
  {
    if p < |a| && !AtEnd(a, p) && !IsDelimiter(a[p]) && IsPrintable(a[p]) {
      ScanPrimitiveLonger(a, js, p + 1);
    }
  }

  lemma {:induction false} ScanHexLonger(a: string, js: string, p: nat, n: nat)
    requires a <= js && p <= |a|
    ensures ScanHex(a, p, n).Found? && ScanHex(a, p, n).end < |a| ==> ScanHex(js, p, n) == ScanHex(a, p, n)
    ensures ScanHex(a, p, n).Bad? ==> ScanHex(js, p, n).Bad?
    decreases n
  {
    if n > 0 && !AtEnd(a, p) && IsHex(a[p]) {
      ScanHexLonger(a, js, p + 1, n - 1);
    }
  }

  lemma {:induction false} ScanStringLonger(a: string, js: string, p: nat)
    requires a <= js && p <= |a|
    ensures !ScanString(a, p).Unfinished? ==> ScanString(js, p) == ScanString(a, p)
    decreases |a| - p
  {
    if !ScanString(a, p).Unfinished? && a[p] != '\"' {
      if a[p] == '\\' && p + 1 < |a| {
        if IsSimpleEscape(a[p + 1]) {
          ScanStringLonger(a, js, p + 2);
        } else {
          if a[p + 1] == 'u' {
            ScanHexLonger(a, js, p + 2, 4);
            if ScanHex(a, p + 2, 4).Found? {
              ScanStringLonger(a, js, ScanHex(a, p + 2, 4).end);
            }
          }
        }
      } else {
        ScanStringLonger(a, js, p + 1);
      }
    }
  }

  /** A lexeme taken from the shorter text is taken from the longer one too, if it is not split. */
  lemma StepLonger(a: string, js: string, cap: nat, more: nat, s: State)
    requires a <= js && cap <= more && InRange(s) && !AtEnd(a, s.pos)
    requires Step(a, cap, s).Next?
    requires |Step(a, cap, s).s.toks| > |s.toks| ==> !SplitsPrimitive(js, |a|, Step(a, cap, s).s.toks)
    ensures Step(js, more, s) == Step(a, cap, s)
  {
    var c := a[s.pos];
    assert js[s.pos] == c;
    if c == '\"' {
      ScanStringLonger(a, js, s.pos + 1);
    } else if c != '{' && c != '[' && !IsDelimiter(c) {
      ScanPrimitiveLonger(a, js, s.pos);
    }
  }

  // ----- resuming -----

  /** Continuing a call that did not split a primitive gives what one call gives. */
  lemma {:induction false} Resume(a: string, js: string, cap: nat, more: nat, s: State)
    requires a <= js && cap <= more && InRange(s)
    requires var s1 := Run(a, cap, s).0;
             |s1.toks| > |s.toks| ==> !SplitsPrimitive(js, |a|, s1.toks)
    ensures Run(js, more, Run(a, cap, s).0) == Run(js, more, s)
    decreases |a| - s.pos
  {
    if !AtEnd(a, s.pos) && Step(a, cap, s).Next? {
      var s' := Step(a, cap, s).s;
      if s'.pos == |a| {
        assert Run(a, cap, s').0 == s';
      } else if s'.toks != s.toks && |s'.toks| > |s.toks| {
        LastTokenBeforeCut(a, cap, s);
      }
      StepLonger(a, js, cap, more, s);
      Resume(a, js, cap, more, s');
    }
  }

  lemma LastTokenBeforeCut(a: string, cap: nat, s: State)
    requires InRange(s) && !AtEnd(a, s.pos) && Step(a, cap, s).Next?
    requires Step(a, cap, s).s.pos < |a| && |Step(a, cap, s).s.toks| > |s.toks|
    ensures var toks := Step(a, cap, s).s.toks; toks[|toks| - 1].end < |a|
  {
  }

  /** `t'` is `t` later: same type and start, and the same end once it is set. */
  predicate Later(t: Token, t': Token) {
    t'.typ == t.typ && t'.start == t.start && (t.end != -1 ==> t'.end == t.end)
  }

  lemma StepKeepsTokens(js: string, cap: nat, s: State, i: nat)
    requires InRange(s) && i < |s.toks| && !AtEnd(js, s.pos) && Step(js, cap, s).Next?
    ensures Later(s.toks[i], Step(js, cap, s).s.toks[i])
  {
    hide ScanString;
    hide ScanPrimitive;
  }

  /** Tokens keep their type and start for ever, and their end once it is set. */
  lemma {:induction false} RunKeepsTokens(js: string, cap: nat, s: State, i: nat)
    requires InRange(s) && i < |s.toks|
    ensures Later(s.toks[i], Run(js, cap, s).0.toks[i])
    decreases |js| - s.pos
  {
    if !AtEnd(js, s.pos) && Step(js, cap, s).Next? {
      StepKeepsTokens(js, cap, s, i);
      hide Step;
      RunKeepsTokens(js, cap, Step(js, cap, s).s, i);
    }
  }

  /** A primitive token that ends at `cut` inside a longer primitive is not what one call makes. */
  lemma PrimitiveDiffers(a: string, js: string, cap: nat, more: nat, s: State)
    requires a <= js && cap <= more && InRange(s) && !AtEnd(a, s.pos)
    requires Step(a, cap, s).Next? && |Step(a, cap, s).s.toks| > |s.toks|
    requires SplitsPrimitive(js, |a|, Step(a, cap, s).s.toks)
    ensures |Run(js, more, s).0.toks| > |s.toks| ==> Run(js, more, s).0.toks[|s.toks|].end > |a|
  {
    var c := a[s.pos];
    assert c != '{' && c != '[' && c != '\"' && !IsDelimiter(c);
    ScanPrimitiveLonger(a, js, s.pos);
    if Step(js, more, s).Next? {
      RunKeepsTokens(js, more, Step(js, more, s).s, |s.toks|);
    }
  }

  /** Continuing a call that did split a primitive never gives what one call gives. */
  lemma {:induction false} SplitDiffers(a: string, js: string, cap: nat, more: nat, s: State)
    requires a <= js && cap <= more && InRange(s)
    requires var s1 := Run(a, cap, s).0;
             |s1.toks| > |s.toks| && SplitsPrimitive(js, |a|, s1.toks)
    ensures Run(js, more, Run(a, cap, s).0) != Run(js, more, s)
    decreases |a| - s.pos
  {
    var s1 := Run(a, cap, s).0;
    var s' := Step(a, cap, s).s;
    if |s1.toks| > |s'.toks| {
      if |s'.toks| > |s.toks| {
        NotLastToken(a, cap, s);
      }
      StepLonger(a, js, cap, more, s);
      SplitDiffers(a, js, cap, more, s');
    } else {
      RunKeepsTokens(a, cap, s', |s.toks|);
      PrimitiveDiffers(a, js, cap, more, s);
      RunKeepsTokens(js, more, s1, |s.toks|);
    }
  }

  /** A token that is followed by another ends before the text does. */
  lemma NotLastToken(a: string, cap: nat, s: State)
    requires InRange(s) && !AtEnd(a, s.pos) && Step(a, cap, s).Next?
    requires var s' := Step(a, cap, s).s;
             |s'.toks| > |s.toks| && |Run(a, cap, s').0.toks| > |s'.toks|
    ensures var toks := Step(a, cap, s).s.toks; toks[|toks| - 1].end < |a|
  {
    LastTokenBeforeCut(a, cap, s);
  }

  /**
    Parsing a prefix and then the whole text, with an array at least as large,
    equals one call on the whole text exactly when the cut does not split a primitive.
   */
  lemma ChunkedEqualsOneShot(js: string, cut: nat, cap: nat, more: nat)
    requires cut <= |js| && cap <= more
    ensures var s1 := Run(js[..cut], cap, Fresh).0;
            Run(js, more, s1) == Run(js, more, Fresh) <==> !SplitsPrimitive(js, cut, s1.toks)
  {
    if SplitsPrimitive(js, cut, Run(js[..cut], cap, Fresh).0.toks) {
      SplitDiffers(js[..cut], js, cap, more, Fresh);
    } else {
      Resume(js[..cut], js, cap, more, Fresh);
    }
  }

  /** The smallest text on which a cut shows: one number becomes two tokens. */
  lemma SplitNumber()
    ensures Run("12", 2, Fresh).1 == Done(1)
    ensures Run("12", 2, Run("1", 2, Fresh).0).1 == Done(2)
  {
    assert ScanPrimitive("12", 2) == Found(2);
    var one := State(2, [Token(Primitive, 0, 2, 0)], -1);
    assert Step("12", 2, Fresh) == Next(one);
    assert ScanPrimitive("1", 1) == Found(1);
    var cut := State(1, [Token(Primitive, 0, 1, 0)], -1);
    assert Step("1", 2, Fresh) == Next(cut);
    assert Step("12", 2, cut) == Next(State(2, cut.toks + [Token(Primitive, 1, 2, 0)], -1));
    assert Run("12", 2, State(2, cut.toks + [Token(Primitive, 1, 2, 0)], -1)).1 == Done(2);
  }

  // ----- running out of tokens -----

  /**
    A full array loses nothing: continuing with a larger one gives what a single
    call with the larger one gives; and a call that had room enough is unchanged by more.
   */
  lemma MoreTokens(js: string, cap: nat, more: nat, s: State)
    requires cap <= more && InRange(s)
    ensures Run(js, more, Run(js, cap, s).0) == Run(js, more, s)
    ensures Run(js, cap, s).1 != NoMem ==> Run(js, more, s) == Run(js, cap, s)
  {
    Resume(js, js, cap, more, s);
    if Run(js, cap, s).1 != NoMem {
      EnoughTokens(js, cap, more, s);
    }
  }

  lemma {:induction false} EnoughTokens(js: string, cap: nat, more: nat, s: State)
    requires cap <= more && InRange(s) && Run(js, cap, s).1 != NoMem
    ensures Run(js, more, s) == Run(js, cap, s)
    decreases |js| - s.pos
  {
    if !AtEnd(js, s.pos) && Step(js, cap, s).Next? {
      EnoughTokens(js, cap, more, Step(js, cap, s).s);
    }
  }

  /** The array is full when it is reported full, and never overfilled. */
  lemma {:induction false} NoMemMeansFull(js: string, cap: nat, s: State)
    requires InRange(s) && |s.toks| <= cap
    ensures |Run(js, cap, s).0.toks| <= cap
    ensures Run(js, cap, s).1 == NoMem ==> |Run(js, cap, s).0.toks| == cap
    decreases |js| - s.pos
  {
    if !AtEnd(js, s.pos) && Step(js, cap, s).Next? {
      NoMemMeansFull(js, cap, Step(js, cap, s).s);
    }
  }

  // ----- any number of calls -----

  /** One call of a sequence: how much of the text it sees and how many tokens it may use. */
  datatype Call = Call(len: nat, cap: nat)

  /** The state after a sequence of calls, each continuing from the one before. */
  function Feed(js: string, calls: seq<Call>, s: State): (r: State)
    requires InRange(s) && forall c :: c in calls ==> c.len <= |js|
    ensures InRange(r)
    decreases |calls|
  {
    if calls == [] then s
    else Feed(js, calls[1..], Run(js[..calls[0].len], calls[0].cap, s).0)
  }

  /** No call of the sequence stopped inside a primitive. */
  predicate CleanCuts(js: string, calls: seq<Call>, s: State)
    requires InRange(s) && forall c :: c in calls ==> c.len <= |js|
    decreases |calls|
  {
    calls == [] ||
    var s1 := Run(js[..calls[0].len], calls[0].cap, s).0;
    !SplitsPrimitive(js, calls[0].len, s1.toks) && CleanCuts(js, calls[1..], s1)
  }

  /** However the text arrives and however the array grows, the last call decides alone. */
  lemma {:induction false} FeedEqualsOneShot(js: string, calls: seq<Call>, cap: nat, s: State)
    requires InRange(s) && forall c :: c in calls ==> c.len <= |js| && c.cap <= cap
    requires CleanCuts(js, calls, s)
    ensures Run(js, cap, Feed(js, calls, s)) == Run(js, cap, s)
    decreases |calls|
  {
    if calls != [] {
      var a := js[..calls[0].len];
      FeedEqualsOneShot(js, calls[1..], cap, Run(a, calls[0].cap, s).0);
      Resume(a, js, calls[0].cap, cap, s);
    }
  }

  // ----- a split shows for ever -----

  /** A primitive that ends where its text goes on. */
  predicate Broken(js: string, t: Token) {
    t.typ == Primitive && t.end >= 0 && !AtEnd(js, t.end) && !IsDelimiter(js[t.end])
  }

  predicate NoneBroken(js: string, toks: seq<Token>) {
    forall i :: 0 <= i < |toks| ==> !Broken(js, toks[i])
  }

  lemma {:induction false} ScanPrimitiveEnds(js: string, p: nat)
    requires p <= |js| && ScanPrimitive(js, p).Found?
    ensures var q := ScanPrimitive(js, p).end; AtEnd(js, q) || IsDelimiter(js[q])
    decreases |js| - p
  {
    if !AtEnd(js, p) && !IsDelimiter(js[p]) {
      ScanPrimitiveEnds(js, p + 1);
    }
  }

  lemma StepBreaksNone(js: string, cap: nat, s: State)
    requires InRange(s) && !AtEnd(js, s.pos) && Step(js, cap, s).Next? && NoneBroken(js, s.toks)
    ensures NoneBroken(js, Step(js, cap, s).s.toks)
  {
    hide ScanString;
    hide LastOpen;
    if PrimitiveStep(js, cap, s).Next? {
      ScanPrimitiveEnds(js, s.pos);
    }
    hide ScanPrimitive;
    ContainersClose(s);
  }

  /** What a bracket closes is a container. */
  lemma ContainersClose(s: State)
    requires InRange(s)
    ensures CloseStep(s, Object).Next? ==> s.toks[LastOpen(s.toks)].typ == Object
    ensures CloseStep(s, Array).Next? ==> s.toks[LastOpen(s.toks)].typ == Array
  {
  }

  /** One call on the whole text breaks no primitive. */
  lemma {:induction false} RunBreaksNone(js: string, cap: nat, s: State)
    requires InRange(s) && NoneBroken(js, s.toks)
    ensures NoneBroken(js, Run(js, cap, s).0.toks)
    decreases |js| - s.pos
  {
    if !AtEnd(js, s.pos) && Step(js, cap, s).Next? {
      StepBreaksNone(js, cap, s);
      hide Step;
      hide NoneBroken;
      RunBreaksNone(js, cap, Step(js, cap, s).s);
    }
  }

  lemma {:induction false} FeedKeepsTokens(js: string, calls: seq<Call>, s: State, i: nat)
    requires InRange(s) && i < |s.toks| && forall c :: c in calls ==> c.len <= |js|
    ensures i < |Feed(js, calls, s).toks| && Later(s.toks[i], Feed(js, calls, s).toks[i])
    decreases |calls|
  {
    if calls != [] {
      var a := js[..calls[0].len];
      RunKeepsTokens(a, calls[0].cap, s, i);
      FeedKeepsTokens(js, calls[1..], Run(a, calls[0].cap, s).0, i);
    }
  }

  /** A sequence of calls in which one stops inside a primitive leaves a broken token. */
  lemma {:induction false} SplitStays(js: string, calls: seq<Call>, s: State) returns (i: nat)
    requires InRange(s) && (forall c :: c in calls ==> c.len <= |js|) && !CleanCuts(js, calls, s)
    ensures i < |Feed(js, calls, s).toks| && Broken(js, Feed(js, calls, s).toks[i])
    decreases |calls|
  {
    var s1 := Run(js[..calls[0].len], calls[0].cap, s).0;
    if SplitsPrimitive(js, calls[0].len, s1.toks) {
      i := |s1.toks| - 1;
      FeedKeepsTokens(js, calls[1..], s1, i);
    } else {
      i := SplitStays(js, calls[1..], s1);
    }
  }

  /**
    However the text arrives and however the array grows, a last call on all of it decides
    alone, exactly when no call before it stopped inside a primitive.
   */
  lemma FeedExact(js: string, calls: seq<Call>, cap: nat)
    requires forall c :: c in calls ==> c.len <= |js| && c.cap <= cap
    ensures Run(js, cap, Feed(js, calls, Fresh)) == Run(js, cap, Fresh) <==> CleanCuts(js, calls, Fresh)
  {
    if CleanCuts(js, calls, Fresh) {
      FeedEqualsOneShot(js, calls, cap, Fresh);
    } else {
      var i := SplitStays(js, calls, Fresh);
      RunKeepsTokens(js, cap, Feed(js, calls, Fresh), i);
      RunBreaksNone(js, cap, Fresh);
      var toks := Run(js, cap, Feed(js, calls, Fresh)).0.toks;
      assert Broken(js, toks[i]);
    }
  }
}
