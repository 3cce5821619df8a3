/**
  Count mode, a call without a token array, agrees with fill mode: it says how many
  tokens a text needs, so that an array of that size is never too small.
 */
module JsmnCount {
  import opened JsmnSpec
  import opened Text
  import opened JsmnResume
  import opened JsmnSpans

  /** A lexeme that fill mode takes is taken by count mode, with the same number of tokens. */
  lemma StepCounts(js: string, cap: nat, s: State)
    requires InRange(s) && !AtEnd(js, s.pos)
    ensures Step(js, cap, s).Next? ==>
              CountStep(js, s.pos, |s.toks|) == CountNext(Step(js, cap, s).s.pos, |Step(js, cap, s).s.toks|)
    ensures Step(js, cap, s) == Fail(NoMem) ==>
              CountStep(js, s.pos, |s.toks|).CountNext? && CountStep(js, s.pos, |s.toks|).n == |s.toks| + 1
  {
  }

  /** From any state of fill mode, count mode continues to the same position and the same answer. */
  lemma {:induction false} FillThenCount(js: string, cap: nat, s: State)
    requires InRange(s)
    ensures Run(js, cap, s).1.Done? ==>
              CountRun(js, s.pos, |s.toks|) == (Run(js, cap, s).0.pos, Run(js, cap, s).1)
    ensures Run(js, cap, s).1 == NoMem && |s.toks| <= cap && CountRun(js, s.pos, |s.toks|).1.Done? ==>
              CountRun(js, s.pos, |s.toks|).1.count > cap
    decreases |js| - s.pos
  {
    if !AtEnd(js, s.pos) {
      StepCounts(js, cap, s);
      if Step(js, cap, s).Next? {
        FillThenCount(js, cap, Step(js, cap, s).s);
      }
    }
  }

  /** Every success of fill mode is what count mode returns. */
  lemma FillSuccessIsCounted(js: string, cap: nat)
    requires Run(js, cap, Fresh).1.Done?
    ensures CountRun(js, 0, 0).1 == Run(js, cap, Fresh).1
  {
    FillThenCount(js, cap, Fresh);
  }

  /** An array of the counted size never runs out, and a success returns exactly the count. */
  lemma CountedSizeSuffices(js: string, cap: nat)
    requires CountRun(js, 0, 0).1.Done? && cap >= CountRun(js, 0, 0).1.count
    ensures Run(js, cap, Fresh).1 != NoMem
    ensures Run(js, cap, Fresh).1.Done? ==> Run(js, cap, Fresh).1 == CountRun(js, 0, 0).1
  {
    FillThenCount(js, cap, Fresh);
  }

  /** And a smaller one always does, if the text is acceptable at all. */
  lemma CountedSizeIsLeast(js: string, cap: nat, enough: nat)
    requires Run(js, enough, Fresh).1.Done? && cap < Run(js, enough, Fresh).1.count
    ensures Run(js, cap, Fresh).1 == NoMem
  {
    if Run(js, cap, Fresh).1 != NoMem {
      var both := if cap <= enough then enough else cap;
      EnoughTokens(js, cap, both, Fresh);
      EnoughTokens(js, enough, both, Fresh);
      NoMemMeansFull(js, cap, Fresh);
      DoneIsFinished(js, cap, Fresh);
    }
  }
}
