/**
  The software volume: a gain ramp applied frame by frame to 16-bit samples, whose
  state survives from one buffer to the next.

  The gain is a 15-bit fixed-point factor in 0..32768. The step is whatever integer
  the floating-point division was truncated to: zero, or towards the target.
 */
module SoftVolume {

  const UNITY := 32768

  // ----- the ramp -----

  datatype Ramp = Ramp(cur: int, step: int, gain: int)

  predicate Between(lo: int, x: int, hi: int) { lo <= x <= hi }

  /** What every operation keeps. */
  predicate RampOk(r: Ramp) {
    && Between(0, r.cur, UNITY) && Between(0, r.gain, UNITY)
    && (r.cur < r.gain ==> r.step >= 0)
    && (r.cur > r.gain ==> r.step <= 0)
  }

  /** One frame of the loop: the step is cleared only when it goes past the target. */
  function FrameStep(r: Ramp): (r': Ramp)
    requires RampOk(r)
    ensures RampOk(r') && r'.gain == r.gain
  {
    if r.step == 0 then r
    else
      var cur := r.cur + r.step;
      if (r.step > 0 && cur > r.gain) || (r.step < 0 && cur < r.gain) then Ramp(r.gain, 0, r.gain)
      else r.(cur := cur)
  }

  function Frames(r: Ramp, n: nat): (r': Ramp)
    requires RampOk(r)
    ensures RampOk(r') && r'.gain == r.gain
  {
    if n == 0 then r else FrameStep(Frames(r, n - 1))
  }

  /** A whole buffer: a ramp that has arrived is not stepped, and keeps a step that was not cleared. */
  function Buffer(r: Ramp, n: nat): (r': Ramp)
    requires RampOk(r)
    ensures RampOk(r') && r'.gain == r.gain
  {
    if r.cur == r.gain then r else Frames(r, n)
  }

  /** Equal as far as any sample can tell. */
  predicate Same(r: Ramp, q: Ramp) {
    r.gain == q.gain && r.cur == q.cur && (r.cur != r.gain ==> r.step == q.step)
  }

  /** The gain of frame `i` after a gain change, in closed form. */
  function ClosedForm(r: Ramp, i: nat): int {
    var c := r.cur + i * r.step;
    if r.cur == r.gain then r.gain
    else if r.cur < r.gain then (if c < r.gain then c else r.gain)
    else (if c > r.gain then c else r.gain)
  }

  /** The ramp is its closed form: linear, then flat at the target, never past it. */
  lemma {:induction false} RampClosedForm(r: Ramp, i: nat)
    requires RampOk(r)
    ensures Frames(r, i).cur == ClosedForm(r, i)
    ensures Frames(r, i).cur != r.gain ==> Frames(r, i).step == r.step
  {
    if i > 0 {
      RampClosedForm(r, i - 1);
      assert i * r.step == (i - 1) * r.step + r.step;
      StepSign(i - 1, r.step);
    }
  }

  lemma StepSign(i: nat, step: int)
    ensures step >= 0 ==> i * step >= 0
    ensures step <= 0 ==> i * step <= 0
  {
  }

  /** The gain moves monotonically to the target and stays between where it was and there. */
  lemma RampMonotone(r: Ramp, i: nat, j: nat)
    requires RampOk(r) && i <= j
    ensures r.cur <= r.gain ==> r.cur <= Frames(r, i).cur <= Frames(r, j).cur <= r.gain
    ensures r.cur >= r.gain ==> r.cur >= Frames(r, i).cur >= Frames(r, j).cur >= r.gain
  {
    RampClosedForm(r, i);
    RampClosedForm(r, j);
    hide Frames;
    StepSign(i, r.step);
    StepSign(j - i, r.step);
    Distribute(i, j - i, r.step);
  }

  lemma Distribute(a: int, b: int, c: int)
    ensures (a + b) * c == a * c + b * c
  {
  }

  lemma ScaleUp(a: int, b: int, c: nat)
    requires a <= b
    ensures a * c <= b * c
  {
    StepSign(c, b - a);
    Distribute(b - a, a, c);
  }

  /** A step that leads exactly to the target is kept; only one that would lead past it is cleared. */
  lemma ExactArrival(r: Ramp)
    requires RampOk(r) && r.step != 0 && r.cur != r.gain
    ensures FrameStep(r).step == 0 <==> (if r.cur < r.gain then r.cur + r.step > r.gain else r.cur + r.step < r.gain)
  {
  }

  /** It is at the target exactly from the frame at which enough steps have been made; with a zero step, never. */
  lemma RampArrives(r: Ramp, i: nat)
    requires RampOk(r) && r.cur != r.gain
    ensures Frames(r, i).cur == r.gain <==>
            (if r.cur < r.gain then i * r.step >= r.gain - r.cur else i * r.step <= r.gain - r.cur)
    ensures r.step == 0 ==> Frames(r, i).cur == r.cur
  {
    RampClosedForm(r, i);
  }

  lemma {:induction false} SameFrames(r: Ramp, q: Ramp, n: nat)
    requires RampOk(r) && RampOk(q) && Same(r, q)
    ensures Same(Frames(r, n), Frames(q, n))
  {
    if n > 0 {
      SameFrames(r, q, n - 1);
    }
  }

  lemma {:induction false} BufferIsFrames(r: Ramp, n: nat)
    requires RampOk(r)
    ensures Same(Buffer(r, n), Frames(r, n))
  {
    if n > 0 {
      BufferIsFrames(r, n - 1);
    }
  }

  lemma {:induction false} FramesAdd(r: Ramp, m: nat, n: nat)
    requires RampOk(r)
    ensures Frames(Frames(r, m), n) == Frames(r, m + n)
  {
    if n > 0 {
      FramesAdd(r, m, n - 1);
    }
  }

  /** A frame has the same gain whether or not a buffer ended before it. */
  lemma BuffersAdd(r: Ramp, m: nat, n: nat)
    requires RampOk(r)
    ensures Frames(Buffer(r, m), n).cur == Frames(r, m + n).cur
  {
    BufferIsFrames(r, m);
    SameFrames(Buffer(r, m), Frames(r, m), n);
    FramesAdd(r, m, n);
  }

  // ----- samples -----

  predicate IsSample(x: int) { -32768 <= x < 32768 }

  /** The two's complement value of the low 16 bits. */
  function ToInt16(x: int): int {
    (x + 32768) % 65536 - 32768
  }

  /** A sample times the gain, shifted right by 15 and stored in 16 bits. */
  function Scale(x: int, cur: int): int {
    ToInt16(x * cur / UNITY)
  }

  /** Scaling never wraps and never makes a sample larger, or change sign. */
  lemma ScaleInRange(x: int, cur: int)
    requires IsSample(x) && Between(0, cur, UNITY)
    ensures Scale(x, cur) == x * cur / UNITY
    ensures x >= 0 ==> 0 <= Scale(x, cur) <= x
    ensures x <= 0 ==> x <= Scale(x, cur) <= 0
    ensures cur == 0 ==> Scale(x, cur) == 0
    ensures cur == UNITY ==> Scale(x, cur) == x
  {
    if x >= 0 {
      ScaleUp(0, x, cur);
      ScaleUp(cur, UNITY, x);
    } else {
      ScaleUp(x, 0, cur);
      ScaleUp(cur, UNITY, -x);
      Negate(x, cur);
    }
  }

  lemma Negate(x: int, y: int)
    ensures y * -x == -(x * y)
  {
  }

  /** The scaled sample is the product over 2^15, rounded down. */
  lemma ScaleRoundsDown(x: int, cur: int)
    requires -32_768 <= x < 32_768 && 0 <= cur <= 32_768
    ensures Scale(x, cur) * 32_768 <= x * cur < Scale(x, cur) * 32_768 + 32_768
  {
    ScaleInRange(x, cur);
    var y := x * cur;
    hide Scale;
    assert y == y / 32_768 * 32_768 + y % 32_768;
  }

  // ----- whole streams -----

  /** What a stream of interleaved samples becomes: frame `i` is scaled by the gain of frame `i`. */
  function Scaled(samples: seq<int>, channels: nat, r: Ramp): (out: seq<int>)
    requires channels > 0 && RampOk(r)
    ensures |out| == |samples|
  {
    seq(|samples|, k requires 0 <= k < |samples| => Scale(samples[k], Frames(r, k / channels).cur))
  }

  /** A stream in buffers of whole frames, each continuing with the ramp the last one left. */
  function ScaledInBuffers(buffers: seq<seq<int>>, channels: nat, r: Ramp): seq<int>
    requires channels > 0 && RampOk(r)
  {
    if buffers == [] then []
    else
      Scaled(buffers[0], channels, r)
      + ScaledInBuffers(buffers[1..], channels, Buffer(r, |buffers[0]| / channels))
  }

  function Flatten(buffers: seq<seq<int>>): seq<int> {
    if buffers == [] then [] else buffers[0] + Flatten(buffers[1..])
  }

  lemma DivUnique(a: nat, d: nat, q: nat, w: nat)
    requires d > 0 && a == q * d + w && w < d
    ensures a / d == q
  {
    var k := q - a / d;
    Distribute(q, -(a / d), d);
    assert a == a / d * d + a % d;
    assert k * d == a % d - w;
    if k > 0 {
      ScaleUp(1, k, d);
    } else if k < 0 {
      ScaleUp(k, -1, d);
    }
  }

  lemma FrameIndex(k: nat, m: nat, channels: nat)
    requires channels > 0
    ensures (m * channels + k) / channels == m + k / channels
  {
    Distribute(m, k / channels, channels);
    DivUnique(m * channels + k, channels, m + k / channels, k % channels);
  }

  lemma ScaledAppend(a: seq<int>, b: seq<int>, channels: nat, r: Ramp)
    requires channels > 0 && RampOk(r) && |a| % channels == 0
    ensures Scaled(a + b, channels, r) == Scaled(a, channels, r) + Scaled(b, channels, Buffer(r, |a| / channels))
  {
    hide Scale;
    hide Frames;
    hide Buffer;
    var m := |a| / channels;
    assert |a| == m * channels;
    var whole, left, right := Scaled(a + b, channels, r), Scaled(a, channels, r), Scaled(b, channels, Buffer(r, m));
    forall k | 0 <= k < |a + b|
      ensures whole[k] == (left + right)[k]
    {
      if k >= |a| {
        FrameIndex(k - |a|, m, channels);
        BuffersAdd(r, m, (k - |a|) / channels);
      }
    }
  }

  /** However the stream is cut into buffers, the output is that of the uncut stream. */
  lemma {:induction false} BufferingDoesNotMatter(buffers: seq<seq<int>>, channels: nat, r: Ramp)
    requires channels > 0 && RampOk(r)
    requires forall b :: b in buffers ==> |b| % channels == 0
    ensures ScaledInBuffers(buffers, channels, r) == Scaled(Flatten(buffers), channels, r)
  {
    if buffers != [] {
      var a, rest := buffers[0], buffers[1..];
      BufferingDoesNotMatter(rest, channels, Buffer(r, |a| / channels));
      ScaledAppend(a, Flatten(rest), channels, r);
    }
  }

  /** Every output sample keeps the sign of its input and is no larger. */
  lemma ScaledInRange(samples: seq<int>, channels: nat, r: Ramp, k: nat)
    requires channels > 0 && RampOk(r) && k < |samples| && IsSample(samples[k])
    ensures samples[k] >= 0 ==> 0 <= Scaled(samples, channels, r)[k] <= samples[k]
    ensures samples[k] <= 0 ==> samples[k] <= Scaled(samples, channels, r)[k] <= 0
  {
    ScaleInRange(samples[k], Frames(r, k / channels).cur);
  }

  /**
    Every sample of every frame, in numbers: times the gain of the ramp at that frame, which moves by
    the step from frame to frame and stops at its target, over 2^15 and rounded down.
   */
  lemma SampleClosedForm(samples: seq<int>, channels: nat, r: Ramp, i: nat, j: nat)
    requires RampOk(r) && j < channels && i * channels + j < |samples| && IsSample(samples[i * channels + j])
    ensures var p, moved := i * channels + j, r.cur + i * r.step;
            var g := if r.cur == r.gain || (r.cur < r.gain && moved > r.gain) || (r.cur > r.gain && moved < r.gain)
                     then r.gain else moved;
            Scaled(samples, channels, r)[p] * 32_768 <= samples[p] * g < Scaled(samples, channels, r)[p] * 32_768 + 32_768
  {
    ScaledAt(samples, channels, r, i, j);
    RampClosedForm(r, i);
    ScaleRoundsDown(samples[i * channels + j], Frames(r, i).cur);
    hide Scaled;
    hide Scale;
    hide Frames;
  }

  // ----- the device -----

  datatype Status = Ok | WrongState | NotSupported

  class Volume {
    var cur: int
    var step: int
    var gain: int
    var isOpen: bool
    var channels: nat
    var sampleRate: nat
    var duration: nat

    ghost predicate Valid()
      reads this
    {
      RampOk(Ramp(cur, step, gain)) && (isOpen ==> channels > 0)
    }

    ghost function TheRamp(): (r: Ramp)
      reads this
    {
      Ramp(cur, step, gain)
    }

    constructor ()
      ensures Valid() && TheRamp() == Ramp(0, 0, 0) && !isOpen
    {
      cur, step, gain := 0, 0, 0;
      isOpen, channels, sampleRate, duration := false, 0, 0, 0;
    }

    method Open(bits: nat, channelCount: nat, rate: nat, ms: nat) returns (s: Status)
      requires Valid() && channelCount > 0
      modifies this
      ensures Valid() && TheRamp() == old(TheRamp())
      ensures s == if bits == 16 then Ok else NotSupported
      ensures if bits == 16 then isOpen && channels == channelCount && sampleRate == rate && duration == ms
              else isOpen == old(isOpen) && channels == old(channels)
    {
      if bits != 16 {
        return NotSupported;
      }
      channels, sampleRate, duration := channelCount, rate, ms;
      isOpen := true;
      return Ok;
    }

    /**
      Open, the ramp starts from the gain in use, or is at its target at once if the floating-point
      step is zero; closed, the gain is set at once.
     */
    method Set(newGain: int, truncatedStep: int, stepIsZero: bool)
      requires Valid() && Between(0, newGain, UNITY)
      requires cur <= newGain ==> truncatedStep >= 0
      requires cur >= newGain ==> truncatedStep <= 0
      requires stepIsZero ==> truncatedStep == 0
      modifies this`gain, this`step, this`cur
      ensures Valid() && gain == newGain
      ensures TheRamp() ==
              if !isOpen || stepIsZero then Ramp(newGain, 0, newGain) else Ramp(old(cur), truncatedStep, newGain)
    {
      gain := newGain;
      if isOpen {
        step := truncatedStep;
        if stepIsZero {
          cur := gain;
        }
      } else {
        step := 0;
        cur := gain;
      }
    }

    /**
      One buffer of `len` samples, which may be scaled in place. Samples past the last
      whole frame are left alone, except that a muted buffer is cleared to its end.
     */
    method Process(input: array<int>, output: array<int>, len: nat) returns (s: Status)
      requires Valid() && len <= input.Length && len <= output.Length
      modifies this`cur, this`step, output
      ensures Valid() && s == if isOpen then Ok else WrongState
      ensures !isOpen ==> output[..] == old(output[..]) && TheRamp() == old(TheRamp())
      ensures isOpen ==> TheRamp() == Buffer(old(TheRamp()), len / channels)
      ensures isOpen ==> Whole(len, channels) <= len
      ensures isOpen ==>
                output[..Whole(len, channels)] == Scaled(old(input[..Whole(len, channels)]), channels, old(TheRamp()))
      ensures isOpen ==> forall k :: Whole(len, channels) <= k < output.Length ==>
                output[k] == if k < len && old(cur == gain == 0) then 0 else old(output[k])
    {
      if !isOpen {
        return WrongState;
      }
      var frames := len / channels;
      ghost var was := input[..Whole(len, channels)];
      ghost var ramp := TheRamp();
      hide RampOk;
      hide FrameStep;
      hide Scaled;
      if cur == gain {
        if gain == 0 {
          forall k | 0 <= k < len {
            output[k] := 0;
          }
          Silence(was, channels, ramp);
          assert output[..|was|] == Scaled(was, channels, ramp);
          return Ok;
        }
        ScaleSteady(input, output, frames, was);
        return Ok;
      }
      ScaleRamp(input, output, frames, was);
      return Ok;
    }

    /** The whole frames of a buffer while the gain does not move. */
    method ScaleSteady(input: array<int>, output: array<int>, frames: nat, ghost was: seq<int>)
      requires channels > 0 && RampOk(TheRamp()) && cur == gain && |was| == FrameStart(frames, channels)
      requires Done(input, output, was, Scaled(was, channels, TheRamp()), 0)
      modifies output
      ensures Done(input, output, was, Scaled(was, channels, TheRamp()), |was|)
      ensures forall k :: |was| <= k < output.Length ==> output[k] == old(output[k])
    {
      hide RampOk;
      hide Scaled;
      hide Frames;
      hide FrameStart;
      ghost var ramp := TheRamp();
      FrameZero(channels);
      var i := 0;
      while i < frames
        invariant 0 <= i <= frames
        invariant Done(input, output, was, Scaled(was, channels, ramp), FrameStart(i, channels))
        invariant forall k :: FrameStart(i, channels) <= k < output.Length ==> output[k] == old(output[k])
      {
        BufferIsFrames(ramp, i);
        FrameFits(i, frames, channels);
        ScaleFrame(input, output, i, was, ramp);
        i := i + 1;
      }
    }

    /** The whole frames of a buffer while it does: every frame is followed by a step. */
    method ScaleRamp(input: array<int>, output: array<int>, frames: nat, ghost was: seq<int>)
      requires channels > 0 && RampOk(TheRamp()) && |was| == FrameStart(frames, channels)
      requires Done(input, output, was, Scaled(was, channels, TheRamp()), 0)
      modifies this`cur, this`step, output
      ensures TheRamp() == Frames(old(TheRamp()), frames)
      ensures Done(input, output, was, Scaled(was, channels, old(TheRamp())), |was|)
      ensures forall k :: |was| <= k < output.Length ==> output[k] == old(output[k])
    {
      hide RampOk;
      hide Scaled;
      hide FrameStep;
      hide FrameStart;
      ghost var ramp := TheRamp();
      FrameZero(channels);
      var i := 0;
      while i < frames
        invariant 0 <= i <= frames && TheRamp() == Frames(ramp, i)
        invariant Done(input, output, was, Scaled(was, channels, ramp), FrameStart(i, channels))
        invariant forall k :: FrameStart(i, channels) <= k < output.Length ==> output[k] == old(output[k])
      {
        FrameFits(i, frames, channels);
        ScaleFrame(input, output, i, was, ramp);
        StepGain();
        i := i + 1;
      }
    }

    /** Scaling has reached sample `p`: what is before is done, what is after is still to be read. */
    ghost predicate Done(input: array<int>, output: array<int>, was: seq<int>, want: seq<int>, p: nat)
      reads input, output
    {
      && p <= |was| == |want| && |was| <= input.Length && |was| <= output.Length
      && input[p..|was|] == was[p..] && output[..p] == want[..p]
    }

    /** After a frame of the ramp. */
    method StepGain()
      requires RampOk(TheRamp())
      modifies this`cur, this`step
      ensures TheRamp() == FrameStep(old(TheRamp()))
    {
      if step != 0 {
        cur := cur + step;
        if step > 0 {
          if cur > gain {
            cur := gain;
            step := 0;
          }
        } else {
          if cur < gain {
            cur := gain;
            step := 0;
          }
        }
      }
    }

    /** The inner loop: the samples of frame `i`. */
    method ScaleFrame(input: array<int>, output: array<int>, i: nat, ghost was: seq<int>, ghost ramp: Ramp)
      requires channels > 0 && RampOk(ramp) && cur == Frames(ramp, i).cur
      requires FrameStart(i + 1, channels) <= |was|
      requires Done(input, output, was, Scaled(was, channels, ramp), FrameStart(i, channels))
      modifies output
      ensures Done(input, output, was, Scaled(was, channels, ramp), FrameStart(i + 1, channels))
      ensures forall k :: FrameStart(i + 1, channels) <= k < output.Length ==> output[k] == old(output[k])
    {
      FrameFits(i, i + 1, channels);
      hide Done;
      hide Scaled;
      hide Frames;
      ghost var want := Scaled(was, channels, ramp);
      var p := i * channels;
      var j := 0;
      while j < channels
        invariant 0 <= j <= channels && p == FrameStart(i, channels) + j
        invariant Done(input, output, was, want, p)
        invariant forall k :: p <= k < output.Length ==> output[k] == old(output[k])
      {
        ScaledAt(was, channels, ramp, i, j);
        ScaleSample(input, output, p, was, want);
        p := p + 1;
        j := j + 1;
      }
    }

    /** One sample. */
    method ScaleSample(input: array<int>, output: array<int>, p: nat, ghost was: seq<int>, ghost want: seq<int>)
      requires Done(input, output, was, want, p) && p < |was| && want[p] == Scale(was[p], cur)
      modifies output
      ensures Done(input, output, was, want, p + 1)
      ensures forall k :: p + 1 <= k < output.Length ==> output[k] == old(output[k])
    {
      assert input[p] == input[p..|was|][0] == was[p];
      output[p] := ToInt16(input[p] * cur / UNITY);
      assert input[p + 1..|was|] == was[p + 1..] by {
        assert was[p..][1..] == was[p + 1..];
      }
    }
  }

  function FrameStart(i: nat, channels: nat): nat { i * channels }

  lemma FrameZero(channels: nat)
    ensures FrameStart(0, channels) == 0
  {
  }

  /** Sample `j` of frame `i`. */
  lemma ScaledAt(samples: seq<int>, channels: nat, r: Ramp, i: nat, j: nat)
    requires RampOk(r) && j < channels && FrameStart(i, channels) + j < |samples|
    ensures var p := FrameStart(i, channels) + j;
            Scaled(samples, channels, r)[p] == Scale(samples[p], Frames(r, i).cur)
  {
    hide Scale;
    hide Frames;
    DivUnique(FrameStart(i, channels) + j, channels, i, j);
  }

  /** The samples of the whole frames among `len` samples: fewer than a frame are left over. */
  function Whole(len: nat, channels: nat): (n: nat)
    requires channels > 0
    ensures n <= len < n + channels && n % channels == 0
  {
    assert len == len / channels * channels + len % channels;
    FrameIndex(0, len / channels, channels);
    WholeFrames(len / channels, channels);
    FrameStart(len / channels, channels)
  }

  lemma WholeFrames(i: nat, channels: nat)
    requires channels > 0
    ensures FrameStart(i, channels) % channels == 0
  {
    DivUnique(i * channels, channels, i, 0);
  }

  lemma FrameFits(i: nat, frames: nat, channels: nat)
    requires i < frames
    ensures FrameStart(i + 1, channels) == FrameStart(i, channels) + channels <= FrameStart(frames, channels)
  {
    Distribute(i, 1, channels);
    ScaleUp(i + 1, frames, channels);
  }

  lemma Silence(samples: seq<int>, channels: nat, r: Ramp)
    requires channels > 0 && RampOk(r) && r.cur == r.gain == 0
    ensures forall k :: 0 <= k < |samples| ==> Scaled(samples, channels, r)[k] == 0
  {
    forall k | 0 <= k < |samples|
      ensures Scaled(samples, channels, r)[k] == 0
    {
      RampMonotone(r, k / channels, k / channels);
    }
  }
}
