/**
  What holds of the token array after every lexeme of every text, malformed ones
  included: the spans are laminar and sit on the right characters, and no child is
  counted twice or lost.
 */
module JsmnSpans {
  import opened JsmnGrammar
  import opened JsmnSpec
  import opened Text

  // ----- reachable states -----

  /** One more lexeme, if there is one and it does not fail. */
  function Advance(js: string, cap: nat, s: State): (s': State)
    requires InRange(s)
    ensures InRange(s') && |s.toks| <= |s'.toks| <= |s.toks| + 1
  {
    if AtEnd(js, s.pos) then s
    else
      match Step(js, cap, s)
      case Next(s') => s'
      case Fail(_) => s
  }

  /** The state after `k` lexemes from a fresh parser, or where it stopped before that. */
  function After(js: string, cap: nat, k: nat): (s: State)
    ensures InRange(s)
  {
    if k == 0 then Fresh else Advance(js, cap, After(js, cap, k - 1))
  }

  /** A call on a fresh parser ends in a reachable state. */
  lemma {:induction false} RunIsReachable(js: string, cap: nat, k: nat) returns (n: nat)
    ensures Run(js, cap, After(js, cap, k)).0 == After(js, cap, n)
    decreases |js| - After(js, cap, k).pos
  {
    var s := After(js, cap, k);
    if !AtEnd(js, s.pos) && Step(js, cap, s).Next? {
      assert After(js, cap, k + 1) == Step(js, cap, s).s;
      n := RunIsReachable(js, cap, k + 1);
    } else {
      n := k;
    }
  }

  // ----- spans -----

  /** A token delimits what its type says. */
  predicate WellPlaced(js: string, t: Token) {
    match t.typ
    case Primitive =>
      0 <= t.start < t.end <= |js| &&
      forall p :: t.start <= p < t.end ==> Visible(js[p]) && !Separator(js[p])
    case String =>
      1 <= t.start <= t.end < |js| && js[t.start - 1] == '\"' && js[t.end] == '\"'
    case _ =>
      && 0 <= t.start < |js| && js[t.start] == (if t.typ == Object then '{' else '[')
      && (t.end == -1 || (t.start < t.end - 1 < |js| && js[t.end - 1] == (if t.typ == Object then '}' else ']')))
  }

  /** `u` comes after `t`: past its end, or inside it. */
  predicate AfterOrInside(t: Token, u: Token) {
    || t.end == -1
    || t.end <= u.start
    || (u.end != -1 && u.end <= t.end)
  }

  predicate SpansOk(js: string, s: State) {
    && s.pos <= |js|
    && (forall i :: 0 <= i < |s.toks| ==> WellPlaced(js, s.toks[i]))
    && (forall i :: 0 <= i < |s.toks| ==> s.toks[i].start < s.pos && s.toks[i].end <= s.pos)
    && (forall i, j :: 0 <= i < j < |s.toks| ==> s.toks[i].start < s.toks[j].start)
    && (forall i, j :: 0 <= i < j < |s.toks| ==> AfterOrInside(s.toks[i], s.toks[j]))
  }

  /** A new last token that starts at or after the position. */
  lemma AppendKeepsSpans(js: string, s: State, t: Token, s': State)
    requires InRange(s) && SpansOk(js, s) && s'.toks == Bump(s.toks, s.super) + [t]
    requires WellPlaced(js, t) && s.pos <= t.start < s'.pos <= |js| && t.end <= s'.pos
    ensures SpansOk(js, s')
  {
    var b := Bump(s.toks, s.super);
    assert forall i :: 0 <= i < |b| ==> s'.toks[i] == b[i] && b[i] == s.toks[i].(size := b[i].size);
    forall i | 0 <= i < |s'.toks|
      ensures WellPlaced(js, s'.toks[i]) && s'.toks[i].start < s'.pos && s'.toks[i].end <= s'.pos
    {
      if i < |b| {
        assert WellPlaced(js, s.toks[i]);
      }
    }
    forall i, j | 0 <= i < j < |s'.toks|
      ensures s'.toks[i].start < s'.toks[j].start && AfterOrInside(s'.toks[i], s'.toks[j])
    {
      if j < |b| {
        assert s.toks[i].start < s.toks[j].start && AfterOrInside(s.toks[i], s.toks[j]);
      }
    }
  }

  lemma CloseKeepsSpans(js: string, s: State, typ: TokenType)
    requires InRange(s) && SpansOk(js, s) && CloseStep(s, typ).Next?
    requires s.pos < |js| && (typ == Object || typ == Array)
    requires js[s.pos] == (if typ == Object then '}' else ']')
    ensures SpansOk(js, CloseStep(s, typ).s)
  {
    var i := LastOpen(s.toks);
    var s' := CloseStep(s, typ).s;
    hide LastOpen;
    forall k | 0 <= k < |s.toks|
      ensures WellPlaced(js, s'.toks[k]) && s'.toks[k].start < s'.pos && s'.toks[k].end <= s'.pos
    {
      assert WellPlaced(js, s.toks[k]) && s.toks[k].start < s.pos;
    }
    forall j, k | 0 <= j < k < |s.toks|
      ensures s'.toks[j].start < s'.toks[k].start && AfterOrInside(s'.toks[j], s'.toks[k])
    {
      assert s.toks[j].start < s.toks[k].start && AfterOrInside(s.toks[j], s.toks[k]);
      assert WellPlaced(js, s.toks[k]) && s.toks[k].end <= s.pos;
      assert j == i ==> !IsOpen(s.toks[k]);
    }
  }

  lemma MoveKeepsSpans(js: string, s: State, s': State)
    requires SpansOk(js, s) && s'.toks == s.toks && s.pos <= s'.pos <= |js|
    ensures SpansOk(js, s')
  {
  }

  lemma StringKeepsSpans(js: string, cap: nat, s: State)
    requires InRange(s) && SpansOk(js, s) && s.pos < |js| && js[s.pos] == '\"'
    requires StringStep(js, cap, s).Next?
    ensures SpansOk(js, StringStep(js, cap, s).s)
  {
    var q := ScanString(js, s.pos + 1).end;
    AppendKeepsSpans(js, s, Token(String, s.pos + 1, q, 0), StringStep(js, cap, s).s);
  }

  lemma PrimitiveKeepsSpans(js: string, cap: nat, s: State)
    requires InRange(s) && SpansOk(js, s) && !AtEnd(js, s.pos) && !IsDelimiter(js[s.pos])
    requires PrimitiveStep(js, cap, s).Next?
    ensures SpansOk(js, PrimitiveStep(js, cap, s).s)
  {
    var q := ScanPrimitive(js, s.pos).end;
    PrimitiveExact(js, s.pos, q);
    Classes(js[s.pos]);
    AppendKeepsSpans(js, s, Token(Primitive, s.pos, q, 0), PrimitiveStep(js, cap, s).s);
  }

  lemma StepKeepsSpans(js: string, cap: nat, s: State)
    requires InRange(s) && SpansOk(js, s) && !AtEnd(js, s.pos) && Step(js, cap, s).Next?
    ensures SpansOk(js, Step(js, cap, s).s)
  {
    var c := js[s.pos];
    var s' := Step(js, cap, s).s;
    if c == '{' || c == '[' {
      AppendKeepsSpans(js, s, Token(OpenType(c), s.pos, -1, 0), s');
    } else if c == '}' || c == ']' {
      CloseKeepsSpans(js, s, CloseType(c));
    } else if c == '\"' {
      StringKeepsSpans(js, cap, s);
    } else if IsDelimiter(c) {
      MoveKeepsSpans(js, s, s');
    } else {
      PrimitiveKeepsSpans(js, cap, s);
    }
  }

  /** After any number of lexemes of any text. */
  lemma {:induction false} SpansAlwaysOk(js: string, cap: nat, k: nat)
    ensures SpansOk(js, After(js, cap, k))
  {
    if k > 0 {
      SpansAlwaysOk(js, cap, k - 1);
      var s := After(js, cap, k - 1);
      if !AtEnd(js, s.pos) && Step(js, cap, s).Next? {
        StepKeepsSpans(js, cap, s);
      }
    }
  }

  /** Any two spans are nested or disjoint, and the tokens are in the order of their starts. */
  predicate Laminar(toks: seq<Token>) {
    forall i, j :: 0 <= i < j < |toks| ==>
      && toks[i].start < toks[j].start
      && (toks[i].end <= toks[j].start || toks[j].end <= toks[i].end)
  }

  /** On success every token is closed, delimits what its type says, and the spans are laminar. */
  lemma SuccessIsLaminar(js: string, cap: nat)
    requires Run(js, cap, Fresh).1.Done?
    ensures var toks := Run(js, cap, Fresh).0.toks;
            && Run(js, cap, Fresh).1.count == |toks|
            && Laminar(toks)
            && forall i :: 0 <= i < |toks| ==> WellPlaced(js, toks[i]) && toks[i].start <= toks[i].end
  {
    var n := RunIsReachable(js, cap, 0);
    SpansAlwaysOk(js, cap, n);
    var toks := After(js, cap, n).toks;
    DoneIsFinished(js, cap, Fresh);
    forall i, j | 0 <= i < j < |toks|
      ensures toks[i].end <= toks[j].start || toks[j].end <= toks[i].end
    {
      assert AfterOrInside(toks[i], toks[j]) && WellPlaced(js, toks[i]) && !IsOpen(toks[i]);
    }
    forall i | 0 <= i < |toks|
      ensures toks[i].start <= toks[i].end
    {
      assert WellPlaced(js, toks[i]) && !IsOpen(toks[i]);
    }
  }

  lemma {:induction false} DoneIsFinished(js: string, cap: nat, s: State)
    requires InRange(s) && Run(js, cap, s).1.Done?
    ensures LastOpen(Run(js, cap, s).0.toks) == -1
    ensures Run(js, cap, s).1.count == |Run(js, cap, s).0.toks|
    decreases |js| - s.pos
  {
    if !AtEnd(js, s.pos) {
      DoneIsFinished(js, cap, Step(js, cap, s).s);
    }
  }

  // ----- conservation -----

  function SizeSum(toks: seq<Token>): int {
    if toks == [] then 0 else SizeSum(toks[..|toks| - 1]) + toks[|toks| - 1].size
  }

  function OrphanMade(s: State, s': State): nat {
    if |s'.toks| > |s.toks| && s.super == -1 then 1 else 0
  }

  /** How many of the first `k` lexemes made a token while there was no superior token. */
  function Orphans(js: string, cap: nat, k: nat): nat {
    if k == 0 then 0
    else Orphans(js, cap, k - 1) + OrphanMade(After(js, cap, k - 1), After(js, cap, k))
  }

  lemma {:induction false} SizeSumBump(toks: seq<Token>, super: int)
    requires -1 <= super < |toks|
    ensures SizeSum(Bump(toks, super)) == SizeSum(toks) + (if super == -1 then 0 else 1)
    decreases |toks|
  {
    if super != -1 {
      var r := Bump(toks, super);
      var n := |toks| - 1;
      if super == n {
        assert r[..n] == toks[..n];
      } else {
        assert r[..n] == Bump(toks[..n], super);
        SizeSumBump(toks[..n], super);
      }
    }
  }

  lemma {:induction false} SizeSumSameSizes(a: seq<Token>, b: seq<Token>)
    requires |a| == |b| && forall i :: 0 <= i < |a| ==> a[i].size == b[i].size
    ensures SizeSum(a) == SizeSum(b)
    decreases |a|
  {
    if a != [] {
      SizeSumSameSizes(a[..|a| - 1], b[..|b| - 1]);
    }
  }

  predicate Conserved(s: State, orphans: nat) {
    InRange(s) && SizeSum(s.toks) + orphans == |s.toks|
  }

  lemma AdvanceConserves(js: string, cap: nat, s: State, orphans: nat)
    requires InRange(s) && Conserved(s, orphans)
    ensures Conserved(Advance(js, cap, s), orphans + OrphanMade(s, Advance(js, cap, s)))
  {
    var s' := Advance(js, cap, s);
    AdvanceSizes(js, cap, s);
    hide Advance;
    if |s'.toks| > |s.toks| {
      assert s'.toks[..|s.toks|] == Bump(s.toks, s.super);
      SizeSumBump(s.toks, s.super);
    } else {
      SizeSumSameSizes(s.toks, s'.toks);
    }
  }

  /** What one lexeme does to the sizes: a new token without children, counted for the superior, or nothing. */
  lemma AdvanceSizes(js: string, cap: nat, s: State)
    requires InRange(s)
    ensures var s' := Advance(js, cap, s);
            if |s'.toks| > |s.toks|
            then |s'.toks| == |s.toks| + 1 && s'.toks[..|s.toks|] == Bump(s.toks, s.super) && s'.toks[|s.toks|].size == 0
            else |s'.toks| == |s.toks| && forall i :: 0 <= i < |s.toks| ==> s'.toks[i].size == s.toks[i].size
  {
    hide ScanString;
    hide ScanPrimitive;
    hide LastOpen;
    hide LastOpenContainer;
    hide Bump;
  }

  /**
    Conservation, after any number of lexemes of any text: every token is counted
    by exactly one superior, except those made when there was none.
   */
  lemma {:induction false} Conservation(js: string, cap: nat, k: nat)
    ensures Conserved(After(js, cap, k), Orphans(js, cap, k))
  {
    hide Advance;
    hide Step;
    hide OrphanMade;
    if k > 0 {
      Conservation(js, cap, k - 1);
      AdvanceConserves(js, cap, After(js, cap, k - 1), Orphans(js, cap, k - 1));
    }
  }

  /** The main loop ends: a lexeme moves the position strictly forward, and at most `|js|` fit. */
  lemma {:induction false} Progress(js: string, cap: nat, k: nat)
    ensures var s := After(js, cap, k);
            s.pos <= |js| && |s.toks| <= s.pos &&
            (s.pos >= k || AtEnd(js, s.pos) || Step(js, cap, s).Fail?)
  {
    if k > 0 {
      Progress(js, cap, k - 1);
    }
  }
}
