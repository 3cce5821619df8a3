/**
  Choosing the size of an encoded frame from a requested bit rate, for the SBC and
  LC3 encoders. Unsigned 32-bit products wrap here as they do in C; the properties
  name the products that must not.
 */
module BitRate {

  const WORD := 0x1_0000_0000
  const HALF := 0x8000_0000

  function ToUint32(x: int): nat { x % WORD }

  function ToInt32(x: int): int {
    if x % WORD < HALF then x % WORD else x % WORD - WORD
  }

  function ToUint16(x: int): nat { x % 0x1_0000 }

  /** Division as C does it: towards zero. */
  function Quot(a: int, b: int): int
    requires b > 0
  {
    if a >= 0 then a / b else -(-a / b)
  }

  /** What is left of a number in a word: the one in its range that differs by a multiple of its size. */
  lemma Words(x: int)
    ensures 0 <= ToUint32(x) < 4_294_967_296 && (x - ToUint32(x)) % 4_294_967_296 == 0
    ensures -2_147_483_648 <= ToInt32(x) < 2_147_483_648 && (x - ToInt32(x)) % 4_294_967_296 == 0
    ensures 0 <= ToUint16(x) < 65_536 && (x - ToUint16(x)) % 65_536 == 0
  {
  }

  // ----- arithmetic -----

  lemma MulLe(a: int, b: int, c: nat)
    requires a <= b
    ensures a * c <= b * c
  {
    assert (b - a) * c >= 0;
  }

  lemma DivLe(x: int, d: int, r: int)
    requires d > 0 && x <= r * d
    ensures x / d <= r
  {
    if x / d > r {
      MulLe(r + 1, x / d, d);
    }
  }

  lemma DivGt(x: int, d: int, r: int)
    requires d > 0 && x / d <= r
    ensures x < (r + 1) * d
  {
    MulLe(x / d, r, d);
  }

  lemma DivLt(x: int, d: int, r: int)
    requires d > 0 && x < (r + 1) * d
    ensures x / d <= r
  {
    if x / d > r {
      MulLe(r + 1, x / d, d);
    }
  }

  lemma DivMono(x: int, y: int, d: int)
    requires d > 0 && x <= y
    ensures x / d <= y / d
  {
    DivGt(y, d, y / d);
    DivLt(x, d, y / d);
  }

  // ----- SBC -----

  datatype ChannelMode = Mono | Dual | Stereo | JointStereo

  function ModeNumber(m: ChannelMode): nat {
    match m
    case Mono => 0
    case Dual => 1
    case Stereo => 2
    case JointStereo => 3
  }

  datatype Sbc = Sbc(msbc: bool, mode: ChannelMode, sampleRate: nat, blocks: nat, subbands: nat)

  predicate SbcOk(c: Sbc) {
    0 < c.sampleRate < WORD && 0 < c.blocks < 256 && 0 < c.subbands < 256
  }

  function Channels(c: Sbc): nat { if c.mode == Mono then 1 else 2 }

  predicate IsStereo(c: Sbc) { c.mode == Stereo || c.mode == JointStereo }

  /** Bits for the joint flags. */
  function JointBits(c: Sbc): nat
    requires IsStereo(c)
  {
    (ModeNumber(c.mode) - 2) * c.subbands
  }

  /** The bits of a frame before any are spent on samples. */
  function HeaderBits(c: Sbc): nat
    requires IsStereo(c)
  {
    32 + 4 * c.subbands * Channels(c) + JointBits(c)
  }

  /** Bytes of a frame with a given bitpool, as the code computes them. */
  function FrameLen(c: Sbc, bitpool: int): int
    requires IsStereo(c)
  {
    4 + Quot(4 * c.subbands * Channels(c), 8) + Quot(JointBits(c) + c.blocks * bitpool, 8)
  }

  /** The bit rate of such frames. */
  function Rate(c: Sbc, bitpool: int): int
    requires IsStereo(c) && SbcOk(c)
  {
    8 * FrameLen(c, bitpool) * c.sampleRate / (c.subbands * c.blocks)
  }

  /** The first guess, before any correction. */
  function Guess(c: Sbc, bitrate: nat): int
    requires IsStereo(c) && SbcOk(c)
  {
    bitrate * c.subbands / c.sampleRate - HeaderBits(c) / c.blocks
  }

  function Limit(c: Sbc): nat { if c.subbands == 8 then 255 else 128 }

  /** What the stereo modes choose, if no product wraps. */
  function Chosen(c: Sbc, bitrate: nat): int
    requires IsStereo(c) && SbcOk(c)
  {
    var b := Guess(c, bitrate);
    var b1 := if Rate(c, b) > bitrate then b - 1 else b;
    var b2 := if b1 > Limit(c) then Limit(c) else b1;
    if b2 < 0 then 0 else b2
  }

  /** The products the code forms fit their words. */
  predicate NoWrap(c: Sbc, bitrate: nat)
    requires IsStereo(c) && SbcOk(c)
  {
    && bitrate < HALF && bitrate * c.subbands < HALF
    && (Guess(c, bitrate) >= 0 ==> 8 * FrameLen(c, Guess(c, bitrate)) * c.sampleRate < HALF)
  }

  lemma FrameLenMono(c: Sbc, b: nat, b': nat)
    requires IsStereo(c) && SbcOk(c) && b <= b'
    ensures 0 <= FrameLen(c, b) <= FrameLen(c, b')
    ensures 8 * FrameLen(c, b) <= HeaderBits(c) + c.blocks * b
  {
    MulLe(b, b', c.blocks);
    assert c.blocks * b >= 0;
  }

  lemma RateMono(c: Sbc, b: nat, b': nat)
    requires IsStereo(c) && SbcOk(c) && b <= b'
    ensures 0 <= Rate(c, b) <= Rate(c, b')
  {
    FrameLenMono(c, b, b');
    hide FrameLen;
    ScaledMono(FrameLen(c, b), FrameLen(c, b'), c.sampleRate, c.subbands, c.blocks);
  }

  lemma ScaledMono(len: int, len': int, f: nat, s: nat, blocks: nat)
    requires 0 <= len <= len' && s > 0 && blocks > 0
    ensures 0 <= 8 * len * f / (s * blocks) <= 8 * len' * f / (s * blocks)
  {
    MulLe(0, 8 * len, f);
    MulLe(8 * len, 8 * len', f);
    assert s * blocks > 0;
    DivMono(0, 8 * len * f, s * blocks);
    DivMono(8 * len * f, 8 * len' * f, s * blocks);
  }

  /** Fewer bits per frame than the request pays for is a lower bit rate. */
  lemma BitsFit(bits: nat, q: nat, bitrate: nat, s: nat, f: nat, blocks: nat)
    requires s > 0 && f > 0 && blocks > 0 && bits <= blocks * q && q <= bitrate * s / f
    ensures bits * f / (s * blocks) <= bitrate
  {
    MulLe(bits, blocks * q, f);
    assert q * f <= bitrate * s by {
      MulLe(q, bitrate * s / f, f);
    }
    MulLe(q * f, bitrate * s, blocks);
    assert blocks * q * f == q * f * blocks;
    assert bitrate * s * blocks == bitrate * (s * blocks);
    DivLe(bits * f, s * blocks, bitrate);
  }

  /** One less than the guess always fits: a single decrement absorbs every rounding. */
  lemma OneLessFits(c: Sbc, bitrate: nat)
    requires IsStereo(c) && SbcOk(c) && Guess(c, bitrate) >= 1
    ensures Rate(c, Guess(c, bitrate) - 1) <= bitrate
  {
    var b := Guess(c, bitrate) - 1;
    FrameLenMono(c, b, b);
    hide FrameLen;
    BelowGuess(HeaderBits(c), c.blocks, bitrate * c.subbands / c.sampleRate, b);
    BitsFit(8 * FrameLen(c, b), bitrate * c.subbands / c.sampleRate, bitrate, c.subbands, c.sampleRate, c.blocks);
  }

  lemma BelowGuess(header: nat, blocks: nat, q: int, b: int)
    requires blocks > 0 && b == q - header / blocks - 1
    ensures header + blocks * b < blocks * q
  {
    var m := header / blocks;
    DivGt(header, blocks, m);
    assert (m + 1 + b) * blocks == (m + 1) * blocks + b * blocks;
  }

  /**
    In the stereo modes the bit rate never exceeds the request, exactly when the
    emptiest frame does not exceed it.
   */
  lemma SbcCeiling(c: Sbc, bitrate: nat)
    requires IsStereo(c) && SbcOk(c)
    ensures Rate(c, Chosen(c, bitrate)) <= bitrate <==> Rate(c, 0) <= bitrate
    ensures Chosen(c, bitrate) > 0 ==> Rate(c, Chosen(c, bitrate)) <= bitrate
  {
    hide Rate;
    var b := Guess(c, bitrate);
    var best := if Rate(c, b) > bitrate then b - 1 else b;
    RateMono(c, 0, Chosen(c, bitrate));
    if b >= 1 {
      OneLessFits(c, bitrate);
    }
    if best >= 0 {
      RateMono(c, Chosen(c, bitrate), best);
    }
  }

  /** A flag for every subband, in joint stereo only. */
  function JoinFlags(c: Sbc): nat { if c.mode == JointStereo then c.subbands else 0 }

  /**
    The choice stays below 255 for eight subbands and below 128 otherwise, or at it; and it is not
    timid: unless it is there, one more would cost more than was asked.
   */
  lemma SbcOptimal(c: Sbc, bitrate: nat)
    requires IsStereo(c) && SbcOk(c)
    ensures var most := if c.subbands == 8 then 255 else 128;
            && 0 <= Chosen(c, bitrate) <= most
            && (Chosen(c, bitrate) < most ==>
                  (32 + 8 * c.subbands + JoinFlags(c) + c.blocks * (Chosen(c, bitrate) + 1)) * c.sampleRate
                  > bitrate * c.subbands * c.blocks)
  {
    var most := if c.subbands == 8 then 255 else 128;
    var g, b := Guess(c, bitrate), Chosen(c, bitrate);
    HeaderIs(c);
    GuessIs(c, bitrate);
    hide HeaderBits;
    hide JoinFlags;
    hide Guess;
    hide Rate;
    if b < most {
      if b + 1 >= g + 1 {
        MoreCosts(HeaderBits(c), c.blocks, bitrate * c.subbands, c.sampleRate, g, b + 1);
      } else {
        assert b + 1 == g && Rate(c, g) > bitrate;
        TooManyBits(c, bitrate, g);
      }
    }
  }

  lemma HeaderIs(c: Sbc)
    requires IsStereo(c)
    ensures HeaderBits(c) == 32 + 8 * c.subbands + JoinFlags(c)
  {
  }

  /** A bit rate above the request means that all the bits cost more than was asked. */
  lemma TooManyBits(c: Sbc, bitrate: nat, b: nat)
    requires IsStereo(c) && SbcOk(c) && Rate(c, b) > bitrate
    ensures (HeaderBits(c) + c.blocks * b) * c.sampleRate > bitrate * c.subbands * c.blocks
  {
    FrameLenMono(c, b, b);
    Positive(c.subbands, c.blocks);
    var bits, most := 8 * FrameLen(c, b), HeaderBits(c) + c.blocks * b;
    assert Rate(c, b) == bits * c.sampleRate / (c.subbands * c.blocks);
    hide FrameLen;
    hide HeaderBits;
    hide Rate;
    MulLe(bits, most, c.sampleRate);
    CostAbove(bits * c.sampleRate, c.subbands * c.blocks, bitrate);
    Assoc(bitrate, c.subbands, c.blocks);
  }

  lemma CostAbove(x: nat, d: nat, r: nat)
    requires d > 0 && x / d > r
    ensures x > r * d
  {
    if x <= r * d {
      DivLe(x, d, r);
    }
  }

  lemma GuessIs(c: Sbc, bitrate: nat)
    requires IsStereo(c) && SbcOk(c)
    ensures Guess(c, bitrate) == bitrate * c.subbands / c.sampleRate - HeaderBits(c) / c.blocks
  {
  }

  lemma MoreCosts(header: nat, blocks: nat, x: nat, f: nat, guess: int, b: int)
    requires blocks > 0 && f > 0 && guess == x / f - header / blocks && b >= guess + 1
    ensures (header + blocks * b) * f > x * blocks
  {
    var q, m := x / f, header / blocks;
    assert blocks * (q + 1) <= header + blocks * b by {
      MulLe(q + 1, m + b, blocks);
      assert (m + b) * blocks == m * blocks + b * blocks;
      assert m * blocks <= header;
    }
    MulLe(blocks * (q + 1), header + blocks * b, f);
    DivGt(x, f, q);
    MulLt(x, (q + 1) * f, blocks);
    assert (q + 1) * f * blocks == blocks * (q + 1) * f;
  }

  lemma MulLt(a: int, b: int, c: int)
    requires a < b && c > 0
    ensures a * c < b * c
  {
    assert (b - a) * c > 0;
  }

  /** The bytes of a frame when the sample bits are rounded up to whole bytes, as a frame must hold them. */
  function PaddedLen(c: Sbc, bitpool: nat): int
    requires IsStereo(c)
  {
    4 + 4 * c.subbands * 2 / 8 + (JoinFlags(c) + c.blocks * bitpool + 7) / 8
  }

  /** The code rounds them down: by a byte, exactly when they do not fill their last one. */
  lemma PaddedLenIs(c: Sbc, bitpool: nat)
    requires IsStereo(c) && SbcOk(c)
    ensures PaddedLen(c, bitpool) ==
              FrameLen(c, bitpool) + if (JointBits(c) + c.blocks * bitpool) % 8 == 0 then 0 else 1
  {
    var bits := JointBits(c) + c.blocks * bitpool;
    assert bits >= 0;
    PadByte(bits);
  }

  lemma PadByte(bits: nat)
    ensures (bits + 7) / 8 == bits / 8 + if bits % 8 == 0 then 0 else 1
  {
  }

  /** So the ceiling is that of the code's own frame length: a padded frame can cost more than was asked. */
  lemma PaddedFrameCanExceed()
    ensures var c := Sbc(false, JointStereo, 48000, 16, 4);
            && Chosen(c, 120000) == 6 && Rate(c, 6) == 120000
            && 8 * PaddedLen(c, 6) * c.sampleRate / (c.subbands * c.blocks) == 126000
  {
    var c := Sbc(false, JointStereo, 48000, 16, 4);
    assert HeaderBits(c) == 68 && Guess(c, 120000) == 6;
    assert FrameLen(c, 6) == 20 && Rate(c, 6) == 120000;
    assert PaddedLen(c, 6) == 21;
    hide Rate;
    hide FrameLen;
    hide Guess;
    hide PaddedLen;
  }

  /** The bit rate of padded frames. */
  function PaddedRate(c: Sbc, bitpool: nat): int
    requires IsStereo(c) && SbcOk(c)
  {
    8 * PaddedLen(c, bitpool) * c.sampleRate / (c.subbands * c.blocks)
  }

  /** Whatever the bitpool, the sample bits fill their last byte. */
  predicate WholeBytes(c: Sbc)
    requires IsStereo(c)
  {
    c.blocks % 8 == 0 && JoinFlags(c) % 8 == 0
  }

  lemma EightTimes(blocks: nat, joint: nat, b: nat)
    requires blocks % 8 == 0 && joint % 8 == 0
    ensures (joint + blocks * b) % 8 == 0
  {
    var k := blocks / 8;
    assert blocks * b == 8 * (k * b);
  }

  /** Then padded frames keep to the request as well. */
  lemma PaddedFits(c: Sbc, bitrate: nat)
    requires IsStereo(c) && SbcOk(c) && WholeBytes(c)
    ensures Chosen(c, bitrate) > 0 ==> PaddedRate(c, Chosen(c, bitrate)) <= bitrate
  {
    SbcCeiling(c, bitrate);
    EightTimes(c.blocks, JointBits(c), Chosen(c, bitrate));
    PaddedLenIs(c, Chosen(c, bitrate));
    hide Chosen;
    hide FrameLen;
    hide PaddedLen;
  }

  /**
    A bit rate at which `q` is the quotient of the guess, frames of `x` bits keep to it and
    frames of a byte more do not.
   */
  lemma PickRate(q: nat, f: nat, s: nat, blocks: nat, x: nat) returns (r: nat)
    requires s > 0 && blocks > 0 && f >= 2 * (s * blocks)
    requires blocks * q - 7 <= x < blocks * q + blocks
    ensures r * s / f == q && x * f / (s * blocks) <= r < (x + 8) * f / (s * blocks)
  {
    if x <= blocks * q {
      r := RoundedUp(q, f, s, blocks, x);
    } else {
      Positive(s, blocks);
      r := RoundedDown(q, f, s, blocks, x, s * blocks);
    }
  }

  lemma Quotient(x: nat, d: nat, q: nat)
    requires d > 0 && q * d <= x < (q + 1) * d
    ensures x / d == q
  {
    DivLt(x, d, q);
    if x / d < q {
      DivGt(x, d, q - 1);
    }
  }

  lemma DivAbove(x: nat, d: nat, r: nat)
    requires d > 0 && (r + 1) * d <= x
    ensures r < x / d
  {
    if x / d <= r {
      DivGt(x, d, r);
    }
  }

  lemma Assoc(a: int, b: int, c: int)
    ensures a * b * c == b * c * a == a * (b * c)
  {
  }

  lemma AddOne(a: int, b: int)
    ensures (a + 1) * b == a * b + b
  {
  }

  lemma RoundedUp(q: nat, f: nat, s: nat, blocks: nat, x: nat) returns (r: nat)
    requires s > 0 && blocks > 0 && f >= 2 * (s * blocks)
    requires blocks * q - 7 <= x <= blocks * q
    ensures r * s / f == q && x * f / (s * blocks) <= r < (x + 8) * f / (s * blocks)
  {
    r := (q * f + s - 1) / s;
    DivMod(q * f + s - 1, s);
    AtLeast(s, blocks);
    AddOne(q, f);
    Quotient(r * s, f, q);
    UpBelow(q, f, s, blocks, x, r);
    UpAbove(q, f, s, blocks, x, r);
  }

  lemma AtLeast(s: nat, blocks: nat)
    requires blocks > 0
    ensures s <= s * blocks
  {
    MulLe(1, blocks, s);
  }

  lemma UpBelow(q: nat, f: nat, s: nat, blocks: nat, x: nat, r: nat)
    requires s > 0 && blocks > 0 && x <= blocks * q && q * f <= r * s
    ensures x * f / (s * blocks) <= r
  {
    Positive(s, blocks);
    MulLe(x, blocks * q, f);
    Assoc(blocks, q, f);
    MulLe(q * f, r * s, blocks);
    Assoc(r, s, blocks);
    DivLe(x * f, s * blocks, r);
  }

  lemma UpAbove(q: nat, f: nat, s: nat, blocks: nat, x: nat, r: nat)
    requires s > 0 && blocks > 0 && f >= 2 * (s * blocks)
    requires blocks * q < x + 8 && r * s < q * f + s
    ensures r < (x + 8) * f / (s * blocks)
  {
    Positive(s, blocks);
    MulLe(blocks * q + 1, x + 8, f);
    AddOne(blocks * q, f);
    Assoc(blocks, q, f);
    MulLe(r * s, q * f + s, blocks);
    Assoc(r, s, blocks);
    AddTo(q * f, s, blocks);
    AddOne(r, s * blocks);
    DivAbove((x + 8) * f, s * blocks, r);
  }

  lemma AddTo(a: int, b: int, c: int)
    ensures (a + b) * c == a * c + b * c
  {
  }

  lemma RoundedDown(q: nat, f: nat, s: nat, blocks: nat, x: nat, d: nat) returns (r: nat)
    requires s > 0 && blocks > 0 && d == s * blocks && 0 < d <= f
    requires blocks * q < x < blocks * q + blocks
    ensures r * s / f == q && x * f / d <= r < (x + 8) * f / d
  {
    var y := x * f;
    r := y / d;
    DivRange(y, d);
    DownQuotient(q, f, s, blocks, x, r);
    DownAbove(f, d, x, r);
  }

  lemma DownQuotient(q: nat, f: nat, s: nat, blocks: nat, x: nat, r: nat)
    requires s > 0 && blocks > 0 && f > 0 && f >= s * blocks && blocks * q < x < blocks * q + blocks
    requires r * (s * blocks) <= x * f < r * (s * blocks) + s * blocks
    ensures r * s / f == q
  {
    DownAtLeast(q, f, s, blocks, x, r);
    DownBelow(q, f, s, blocks, x, r);
    Quotient(r * s, f, q);
  }

  lemma DivRange(x: nat, d: nat)
    requires d > 0
    ensures 0 <= x / d && x / d * d <= x < x / d * d + d
  {
    DivMod(x, d);
  }

  lemma DownAbove(f: nat, d: nat, x: nat, r: nat)
    requires d > 0 && f >= d && x * f < r * d + d && r * d <= x * f
    ensures r < (x + 8) * f / d
  {
    AddTo(x, 8, f);
    AddOne(r, d);
    DivAbove((x + 8) * f, d, r);
  }

  lemma DownAtLeast(q: nat, f: nat, s: nat, blocks: nat, x: nat, r: nat)
    requires blocks > 0 && blocks * q < x && f >= s * blocks && x * f < r * (s * blocks) + s * blocks
    ensures q * f <= r * s
  {
    MulLe(blocks * q + 1, x, f);
    AddOne(blocks * q, f);
    Assoc(blocks, q, f);
    Assoc(r, s, blocks);
    if q * f > r * s {
      MulLe(r * s + 1, q * f, blocks);
      AddOne(r * s, blocks);
    }
  }

  lemma DownBelow(q: nat, f: nat, s: nat, blocks: nat, x: nat, r: nat)
    requires f > 0 && blocks > 0 && x < blocks * q + blocks && r * (s * blocks) <= x * f
    ensures r * s < (q + 1) * f
  {
    MulLt(x, blocks * q + blocks, f);
    AddTo(blocks * q, blocks, f);
    Assoc(blocks, q, f);
    Assoc(r, s, blocks);
    AddOne(q, f);
    if r * s >= (q + 1) * f {
      MulLe(q * f + f, r * s, blocks);
      AddTo(q * f, f, blocks);
    }
  }

  /** The bits of a frame, and what the rounding leaves of them. */
  lemma FrameBits(c: Sbc, b: nat)
    requires IsStereo(c) && SbcOk(c)
    ensures 8 * FrameLen(c, b) == HeaderBits(c) + c.blocks * b - (JointBits(c) + c.blocks * b) % 8
    ensures (JointBits(c) + c.blocks * b) % 8 != 0 ==> 8 * PaddedLen(c, b) == 8 * FrameLen(c, b) + 8
  {
    assert c.blocks * b >= 0;
    PaddedLenIs(c, b);
  }

  /** A configuration whose sample bits do not always fill their last byte has a bit rate that padded frames exceed. */
  lemma PaddedWitness(c: Sbc) returns (bitrate: nat)
    requires IsStereo(c) && SbcOk(c) && !WholeBytes(c) && 2 * (c.subbands * c.blocks) <= c.sampleRate <= 192000
    ensures NoWrap(c, bitrate) && Chosen(c, bitrate) > 0 && PaddedRate(c, Chosen(c, bitrate)) > bitrate
  {
    var b := UnfilledByte(c);
    var q := b + HeaderBits(c) / c.blocks;
    var x := 8 * FrameLen(c, b);
    FrameBits(c, b);
    GuessRange(c, b, x);
    Positive(c.subbands, c.blocks);
    bitrate := PickRate(q, c.sampleRate, c.subbands, c.blocks, x);
    assert Guess(c, bitrate) == b;
    SmallProducts(c, bitrate, q, x, b);
    hide Guess;
    hide FrameLen;
    hide PaddedLen;
    hide HeaderBits;
    hide JointBits;
    hide NoWrap;
  }

  /** One of the first two bitpools leaves a byte unfilled. */
  lemma UnfilledByte(c: Sbc) returns (b: nat)
    requires IsStereo(c) && !WholeBytes(c)
    ensures 1 <= b <= 2 && (JointBits(c) + c.blocks * b) % 8 != 0
  {
    Unfilled(JointBits(c), c.blocks);
    hide JointBits;
    if (JointBits(c) + c.blocks) % 8 != 0 {
      b := 1;
      assert c.blocks * b == c.blocks;
    } else {
      b := 2;
      assert c.blocks * b == c.blocks + c.blocks;
    }
  }

  lemma Unfilled(joint: nat, blocks: nat)
    requires blocks % 8 != 0 || joint % 8 != 0
    ensures (joint + blocks) % 8 != 0 || (joint + (blocks + blocks)) % 8 != 0
  {
    DivMod(joint + blocks, 8);
    DivMod(joint + (blocks + blocks), 8);
    var u, v := (joint + blocks) / 8, (joint + (blocks + blocks)) / 8;
    if u * 8 == joint + blocks && v * 8 == joint + (blocks + blocks) {
      WholeEights(blocks, v - u);
      WholeEights(joint, u + u - v);
    }
  }

  lemma WholeEights(x: int, k: int)
    requires x == 8 * k
    ensures x % 8 == 0
  {
  }

  lemma GuessRange(c: Sbc, b: nat, x: int)
    requires IsStereo(c) && SbcOk(c)
    requires x == HeaderBits(c) + c.blocks * b - (JointBits(c) + c.blocks * b) % 8
    ensures var q := b + HeaderBits(c) / c.blocks;
            c.blocks * q - 7 <= x < c.blocks * q + c.blocks && 0 <= HeaderBits(c) / c.blocks <= HeaderBits(c)
  {
    RangeOf(HeaderBits(c), c.blocks, b, (JointBits(c) + c.blocks * b) % 8);
    DivAtMost(HeaderBits(c), c.blocks);
    hide HeaderBits;
    hide JointBits;
  }

  lemma RangeOf(header: nat, blocks: nat, b: nat, w: nat)
    requires blocks > 0 && w < 8
    ensures var q := b + header / blocks;
            blocks * q - 7 <= header + blocks * b - w < blocks * q + blocks
  {
    DivRange(header, blocks);
    AddTo(b, header / blocks, blocks);
  }

  lemma DivAtMost(x: nat, d: nat)
    requires d > 0
    ensures 0 <= x / d <= x
  {
    AtLeast(x, d);
    DivLe(x, d, x);
    DivRange(x, d);
  }

  lemma SmallProducts(c: Sbc, bitrate: nat, q: nat, x: nat, b: nat)
    requires IsStereo(c) && SbcOk(c) && c.sampleRate <= 192000 && 1 <= b <= 2
    requires bitrate * c.subbands / c.sampleRate == q && q <= b + HeaderBits(c)
    requires Guess(c, bitrate) == b && x == 8 * FrameLen(c, b) <= HeaderBits(c) + c.blocks * b
    ensures NoWrap(c, bitrate)
  {
    assert HeaderBits(c) <= 3000 && c.blocks * b <= 510;
    DivGt(bitrate * c.subbands, c.sampleRate, q);
    hide HeaderBits;
    hide FrameLen;
    hide Guess;
    MulLe(q + 1, 3003, c.sampleRate);
    MulLe(x, 3510, c.sampleRate);
    MulLe(1, c.subbands, bitrate);
  }

  /**
    For any frame size and sample rate in use, padded frames keep to every request, exactly when
    the configuration always fills whole bytes.
   */
  lemma PaddedCeiling(c: Sbc)
    requires IsStereo(c) && SbcOk(c) && 2 * (c.subbands * c.blocks) <= c.sampleRate <= 192000
    ensures (forall bitrate: nat :: NoWrap(c, bitrate) && Chosen(c, bitrate) > 0 ==>
               PaddedRate(c, Chosen(c, bitrate)) <= bitrate) <==> WholeBytes(c)
  {
    hide Chosen;
    hide NoWrap;
    hide PaddedRate;
    if WholeBytes(c) {
      forall bitrate: nat | Chosen(c, bitrate) > 0
        ensures PaddedRate(c, Chosen(c, bitrate)) <= bitrate
      {
        PaddedFits(c, bitrate);
      }
    } else {
      var bitrate := PaddedWitness(c);
      assert NoWrap(c, bitrate);
    }
  }

  /** A request below the bit rate of empty frames is exceeded. */
  lemma CeilingFails()
    ensures var c := Sbc(false, Stereo, 48000, 16, 8);
            Chosen(c, 1000) == 0 && Rate(c, 0) == 36000
  {
    var c := Sbc(false, Stereo, 48000, 16, 8);
    assert HeaderBits(c) == 96 && Guess(c, 1000) == -6;
    assert FrameLen(c, 0) == 12 && Rate(c, 0) == 36000;
    hide Rate;
    hide FrameLen;
    hide Guess;
    hide HeaderBits;
  }

  // ----- the SBC branch -----

  /** Mono and dual channel: the guess is per channel and is not corrected. */
  function ChosenPlain(c: Sbc, bitrate: nat): int
    requires !IsStereo(c) && SbcOk(c)
  {
    var b := c.subbands * bitrate / (c.sampleRate * Channels(c))
             - (32 / Channels(c) + 4 * c.subbands) / c.blocks;
    var b1 := if b > 16 * c.subbands then 16 * c.subbands else b;
    if b1 < 0 then 0 else b1
  }

  /** The bits of a frame, header included. */
  function PlainBits(c: Sbc, bitpool: nat): nat
    requires !IsStereo(c)
  {
    if c.mode == Mono then 32 + 4 * c.subbands + c.blocks * bitpool
    else 32 + 8 * c.subbands + c.blocks * 2 * bitpool
  }

  /** Frames with that bitpool cost more than was asked. */
  predicate PlainExceeds(c: Sbc, bitrate: nat, bitpool: nat)
    requires !IsStereo(c)
  {
    PlainBits(c, bitpool) * c.sampleRate > bitrate * c.subbands * c.blocks
  }

  /** The header bits of one channel. */
  function PlainHeader(c: Sbc): nat
    requires !IsStereo(c)
  {
    if c.mode == Mono then 32 + 4 * c.subbands else 16 + 4 * c.subbands
  }

  function PlainGuess(c: Sbc, bitrate: nat): int
    requires !IsStereo(c) && SbcOk(c)
  {
    c.subbands * bitrate / (if c.mode == Mono then c.sampleRate else 2 * c.sampleRate) - PlainHeader(c) / c.blocks
  }

  /** The cost of a frame, per channel. */
  lemma PerChannelCost(c: Sbc, b: nat)
    requires !IsStereo(c)
    ensures (PlainHeader(c) + c.blocks * b) * (c.sampleRate * Channels(c)) == PlainBits(c, b) * c.sampleRate
  {
    var n, x := Channels(c), c.blocks * b;
    var header := PlainHeader(c);
    assert PlainBits(c, b) == n * (header + x) by {
      assert n * header == 32 + 4 * c.subbands * n;
      assert c.blocks * n * b == n * x;
      AddTo(header, x, n);
    }
    hide PlainBits;
    hide PlainHeader;
    Swap(header + x, c.sampleRate, n);
    Assoc(n, header + x, c.sampleRate);
  }

  /** The cost compared per channel. */
  lemma PerChannel(c: Sbc, bitrate: nat, b: nat)
    requires !IsStereo(c) && SbcOk(c)
    ensures PlainExceeds(c, bitrate, b) <==>
            (PlainHeader(c) + c.blocks * b) * (c.sampleRate * Channels(c)) > c.subbands * bitrate * c.blocks
  {
    PerChannelCost(c, b);
  }

  /**
    The choice costs more than was asked, exactly when not even empty frames fit, or when what
    the header division drops outweighs what the bit rate division drops and no limit bites.
   */
  lemma PlainExact(c: Sbc, bitrate: nat)
    requires !IsStereo(c) && SbcOk(c)
    ensures var perSecond := if c.mode == Mono then c.sampleRate else 2 * c.sampleRate;
            PlainExceeds(c, bitrate, ChosenPlain(c, bitrate)) <==>
            PlainGuess(c, bitrate) < 0 ||
            (PlainGuess(c, bitrate) <= 16 * c.subbands
             && PlainHeader(c) % c.blocks * perSecond > c.subbands * bitrate % perSecond * c.blocks)
  {
    var x, f, g := c.subbands * bitrate, c.sampleRate * Channels(c), PlainGuess(c, bitrate);
    var header := PlainHeader(c);
    PerChannel(c, bitrate, ChosenPlain(c, bitrate));
    hide PlainExceeds;
    hide PlainBits;
    if g < 0 {
      TooLittle(header, c.blocks, x, f);
    } else if g > 16 * c.subbands {
      OneLessCosts(header, c.blocks, x, f, 16 * c.subbands);
    } else {
      AtGuess(header, c.blocks, x, f, g);
    }
  }

  lemma TooLittle(header: nat, blocks: nat, x: nat, f: nat)
    requires blocks > 0 && f > 0 && x / f < header / blocks
    ensures header * f > x * blocks
  {
    var m := header / blocks;
    DivGt(x, f, m - 1);
    MulLt(x, m * f, blocks);
    DivMod(header, blocks);
    MulLe(m * blocks, header, f);
    assert m * f * blocks == m * blocks * f;
  }

  lemma AtGuess(header: nat, blocks: nat, x: nat, f: nat, g: int)
    requires blocks > 0 && f > 0 && g == x / f - header / blocks >= 0
    ensures (header + blocks * g) * f - x * blocks == header % blocks * f - x % f * blocks
  {
    var q, m := x / f, header / blocks;
    DivMod(header, blocks);
    DivMod(x, f);
    assert blocks * g == blocks * q - m * blocks;
    var h, w := header % blocks, x % f;
    assert header + blocks * g == h + blocks * q;
    assert (h + blocks * q) * f == h * f + blocks * q * f;
    assert x * blocks == (q * f + w) * blocks == q * f * blocks + w * blocks;
    assert blocks * q * f == q * f * blocks;
  }

  /** A bit rate whose guess drops nothing from the bit rate, and is small and positive. */
  lemma PlainWitness(c: Sbc) returns (bitrate: nat)
    requires !IsStereo(c) && SbcOk(c) && c.sampleRate <= 192000 && PlainHeader(c) % c.blocks != 0
    ensures PlainNoWrap(c, bitrate) && ChosenPlain(c, bitrate) > 0
    ensures PlainExceeds(c, bitrate, ChosenPlain(c, bitrate))
  {
    var m, s, f := PlainHeader(c) / c.blocks, c.subbands, c.sampleRate * Channels(c);
    SmallHeader(c);
    var k := JustAbove(m, s);
    bitrate := k * f;
    WholeQuotient(k * s, f);
    Swap(s, k, f);
    MulLe(k * s, 1400, f);
    Positive(PlainHeader(c) % c.blocks, f);
    PlainExact(c, bitrate);
    assert PlainGuess(c, bitrate) == k * s - m;
    hide PlainHeader;
    hide PlainExceeds;
    hide PlainBits;
  }

  lemma Swap(a: int, b: int, c: int)
    ensures a * (b * c) == b * a * c == b * c * a
  {
  }

  /** The multiple of `s` just above `m`. */
  lemma JustAbove(m: nat, s: nat) returns (k: nat)
    requires s > 0
    ensures m < k * s <= m + s
  {
    k := m / s + 1;
    DivRange(m, s);
    AddOne(m / s, s);
  }

  lemma WholeQuotient(a: nat, d: nat)
    requires d > 0
    ensures a * d / d == a && a * d % d == 0
  {
    AddOne(a, d);
    Quotient(a * d, d, a);
    DivMod(a * d, d);
  }

  lemma SmallHeader(c: Sbc)
    requires !IsStereo(c) && SbcOk(c)
    ensures 0 <= PlainHeader(c) / c.blocks <= PlainHeader(c) <= 1100
  {
    DivAtMost(PlainHeader(c), c.blocks);
  }

  /** Mono and dual channel keep to every request that allows samples, exactly when the header divides evenly. */
  lemma PlainCeiling(c: Sbc)
    requires !IsStereo(c) && SbcOk(c) && c.sampleRate <= 192000
    ensures (forall bitrate: nat :: PlainNoWrap(c, bitrate) && ChosenPlain(c, bitrate) > 0 ==>
               !PlainExceeds(c, bitrate, ChosenPlain(c, bitrate))) <==> PlainHeader(c) % c.blocks == 0
  {
    hide PlainNoWrap;
    hide PlainExceeds;
    if PlainHeader(c) % c.blocks == 0 {
      forall bitrate: nat | ChosenPlain(c, bitrate) > 0
        ensures !PlainExceeds(c, bitrate, ChosenPlain(c, bitrate))
      {
        PlainExact(c, bitrate);
        assert c.subbands * bitrate % (c.sampleRate * Channels(c)) * c.blocks >= 0;
      }
    } else {
      hide ChosenPlain;
      var bitrate := PlainWitness(c);
      assert PlainNoWrap(c, bitrate);
    }
  }

  /** Twelve blocks of eight mono subbands: 100 bits a frame are chosen where 96 were paid for. */
  lemma PlainOvershoots()
    ensures var c := Sbc(false, Mono, 48000, 12, 8);
            ChosenPlain(c, 48000) == 3 && PlainBits(c, 3) == 100 && PlainExceeds(c, 48000, 3)
  {
  }

  /** But never by as much as one unit of bitpool. */
  lemma PlainOvershoot(c: Sbc, bitrate: nat)
    requires !IsStereo(c) && SbcOk(c) && ChosenPlain(c, bitrate) > 0
    ensures PlainBits(c, ChosenPlain(c, bitrate) - 1) * c.sampleRate < bitrate * c.subbands * c.blocks
  {
    var x, f := c.subbands * bitrate, c.sampleRate * Channels(c);
    var b := ChosenPlain(c, bitrate) - 1;
    OneLessCosts(PlainHeader(c), c.blocks, x, f, b);
    PerChannelCost(c, b);
    hide PlainBits;
  }

  lemma OneLessCosts(header: nat, blocks: nat, x: nat, f: nat, b: int)
    requires blocks > 0 && f > 0 && b <= x / f - header / blocks - 1
    ensures (header + blocks * b) * f < x * blocks
  {
    var q, m := x / f, header / blocks;
    assert q * f <= x;
    BelowGuess(header, blocks, q, q - m - 1);
    MulLe(b, q - m - 1, blocks);
    MulLt(header + blocks * b, blocks * q, f);
    MulLe(q * f, x, blocks);
    assert blocks * q * f == q * f * blocks;
  }

  predicate PlainNoWrap(c: Sbc, bitrate: nat)
    requires !IsStereo(c) && SbcOk(c)
  {
    bitrate * c.subbands < HALF && c.sampleRate * Channels(c) < WORD
  }

  datatype Status = Done | InvalidArg

  class SbcConfig {
    var msbc: bool
    var mode: ChannelMode
    var sampleRate: nat
    var blocks: nat
    var subbands: nat
    var bitpool: nat

    function Fields(): Sbc
      reads this
    {
      Sbc(msbc, mode, sampleRate, blocks, subbands)
    }

    method SetBitrate(bitrate: nat) returns (s: Status)
      requires bitrate < WORD && sampleRate < HALF && blocks < 256 && subbands < 256
      modifies this`bitpool
      ensures msbc ==> s == Done && bitpool == 26
      ensures !msbc ==> (s == InvalidArg <==> sampleRate == 0 || blocks == 0 || subbands == 0)
      ensures s == InvalidArg ==> bitpool == old(bitpool)
      ensures s == Done && !msbc && IsStereo(Fields()) ==> bitpool <= if subbands == 8 then 255 else 128
      ensures s == Done && !msbc && IsStereo(Fields()) && NoWrap(Fields(), bitrate) ==>
                bitpool == Chosen(Fields(), bitrate)
      ensures s == Done && !msbc && !IsStereo(Fields()) && PlainNoWrap(Fields(), bitrate) ==>
                bitpool == ChosenPlain(Fields(), bitrate)
    {
      if msbc {
        bitpool := 26;
        return Done;
      }
      if sampleRate == 0 || blocks == 0 || subbands == 0 {
        return InvalidArg;
      }
      hide NoWrap;
      hide Chosen;
      hide PlainNoWrap;
      hide ChosenPlain;
      var channels := if mode == Mono then 1 else 2;
      var pool: int;
      if mode == JointStereo || mode == Stereo {
        pool := StereoPool(bitrate, channels);
      } else {
        pool := PlainPool(bitrate, channels);
      }
      if pool < 0 {
        pool := 0;
      }
      SmallHalfWord(pool);
      hide ToUint16;
      bitpool := ToUint16(pool);
      return Done;
    }

    /** The guess for one channel, and the upper limit. */
    method PlainPool(bitrate: nat, channels: nat) returns (pool: int)
      requires bitrate < WORD && sampleRate < HALF && SbcOk(Fields()) && !IsStereo(Fields())
      requires channels == Channels(Fields())
      ensures pool <= 16 * subbands
      ensures PlainNoWrap(Fields(), bitrate) ==> (if pool < 0 then 0 else pool) == ChosenPlain(Fields(), bitrate)
    {
      var perSecond := sampleRate * channels;
      pool := ToInt32(ToUint32(subbands * bitrate) / perSecond) - (32 / channels + 4 * subbands) / blocks;
      if PlainNoWrap(Fields(), bitrate) {
        QuotientSmall(subbands * bitrate, perSecond);
      }
      var maxBitpool := 16 * subbands;
      if pool > maxBitpool {
        pool := maxBitpool;
      }
    }

    /** The guess, one decrement if its frames cost too much, and the upper limit. */
    method StereoPool(bitrate: nat, channels: nat) returns (pool: int)
      requires bitrate < WORD && SbcOk(Fields()) && IsStereo(Fields()) && channels == 2
      ensures pool <= if subbands == 8 then 255 else 128
      ensures NoWrap(Fields(), bitrate) ==> (if pool < 0 then 0 else pool) == Chosen(Fields(), bitrate)
    {
      hide Chosen;
      ghost var c := Fields();
      var joint := (ModeNumber(mode) - 2) * subbands;
      pool := ToInt32(ToUint32(bitrate * subbands) / sampleRate) - (32 + 4 * subbands * channels + joint) / blocks;
      var frameLen := 4 + Quot(4 * subbands * channels, 8) + Quot(joint + blocks * pool, 8);
      assert frameLen == FrameLen(c, pool);
      hide FrameLen;
      hide HeaderBits;
      hide Quot;
      Positive(subbands, blocks);
      var actual := ToInt32(ToUint32(8 * frameLen * sampleRate) / (subbands * blocks));
      ghost var guess := pool;
      if actual > ToInt32(bitrate) {
        pool := pool - 1;
      }
      ghost var best := pool;
      if subbands == 8 {
        if pool > 255 {
          pool := 255;
        }
      } else {
        if pool > 128 {
          pool := 128;
        }
      }
      if NoWrap(c, bitrate) {
        GuessUnwrapped(c, bitrate);
        if guess >= 0 {
          ActualIsRate(c, guess);
        }
        ChosenIs(c, bitrate, best);
      }
    }
  }

  lemma Positive(a: nat, b: nat)
    requires a > 0 && b > 0
    ensures a * b > 0
  {
  }

  lemma GuessUnwrapped(c: Sbc, bitrate: nat)
    requires IsStereo(c) && SbcOk(c) && NoWrap(c, bitrate)
    ensures ToInt32(ToUint32(bitrate * c.subbands) / c.sampleRate) == bitrate * c.subbands / c.sampleRate
    ensures ToInt32(bitrate) == bitrate
  {
    QuotientSmall(bitrate * c.subbands, c.sampleRate);
  }

  lemma QuotientSmall(x: nat, d: nat)
    requires x < HALF && d > 0
    ensures 0 <= x / d < HALF && ToUint32(x) == x && ToInt32(x / d) == x / d
  {
    MulLe(1, d, x);
    DivLe(x, d, x);
  }

  lemma ActualIsRate(c: Sbc, b: nat)
    requires IsStereo(c) && SbcOk(c) && 8 * FrameLen(c, b) * c.sampleRate < HALF && c.subbands * c.blocks > 0
    ensures ToInt32(ToUint32(8 * FrameLen(c, b) * c.sampleRate) / (c.subbands * c.blocks)) == Rate(c, b)
  {
    FrameLenMono(c, b, b);
    MulLe(0, 8 * FrameLen(c, b), c.sampleRate);
    QuotientSmall(8 * FrameLen(c, b) * c.sampleRate, c.subbands * c.blocks);
  }

  lemma ChosenIs(c: Sbc, bitrate: nat, best: int)
    requires IsStereo(c) && SbcOk(c)
    requires var b := Guess(c, bitrate);
             best == b || best == b - 1
    requires Guess(c, bitrate) >= 0 ==>
               best == if Rate(c, Guess(c, bitrate)) > bitrate then Guess(c, bitrate) - 1 else Guess(c, bitrate)
    ensures var b2 := if best > Limit(c) then Limit(c) else best;
            (if b2 < 0 then 0 else b2) == Chosen(c, bitrate)
  {
    hide Rate;
    hide Guess;
  }

  // ----- LC3 -----

  /** The bit rate of a byte per frame of a tenth of a millisecond. */
  function Lc3Unit(sampleRate: nat): nat { if sampleRate == 44100 then 73500 else 80000 }

  datatype Lc3Rate = Lc3Rate(bitrate: nat) | Lc3Invalid

  class Lc3Config {
    var sampleRate: nat
    var frameDms: nat
    var nbyte: nat

    method SetBitrate(bitrate: nat)
      modifies this`nbyte
      ensures nbyte == Lc3Bytes(sampleRate, frameDms, bitrate)
    {
      var tmp := ToUint32(bitrate * frameDms);
      nbyte := ToUint16(if sampleRate == 44100 then tmp / 73500 else tmp / 80000);
    }

    method GetBitrate() returns (r: Lc3Rate)
      ensures frameDms == 0 ==> r == Lc3Invalid
      ensures frameDms > 0 ==> r == Lc3Rate(Lc3BitRate(sampleRate, frameDms, nbyte))
    {
      if frameDms == 0 {
        return Lc3Invalid;
      }
      var denominator := if sampleRate == 44100 then 73500 else 80000;
      r := Lc3Rate(ToUint32(nbyte * denominator) / frameDms);
    }
  }

  /** Bytes per frame for a bit rate. */
  function Lc3Bytes(sampleRate: nat, dms: nat, bitrate: nat): nat {
    ToUint16(ToUint32(bitrate * dms) / Lc3Unit(sampleRate))
  }

  /** The bit rate of a number of bytes per frame. */
  function Lc3BitRate(sampleRate: nat, dms: nat, nbyte: nat): nat
    requires dms > 0
  {
    ToUint32(nbyte * Lc3Unit(sampleRate)) / dms
  }

  predicate Lc3Ok(sampleRate: nat, dms: nat, nbyte: nat) {
    0 < dms < 256 && nbyte < 0x1_0000 && nbyte * Lc3Unit(sampleRate) < WORD
  }

  /**
    Reading the bit rate and setting it again keeps the frame size exactly when the frame
    duration divides its numerator; otherwise every such round trip loses one byte.
   */
  lemma Lc3SetAfterGet(sampleRate: nat, dms: nat, nbyte: nat)
    requires Lc3Ok(sampleRate, dms, nbyte)
    ensures Lc3Bytes(sampleRate, dms, Lc3BitRate(sampleRate, dms, nbyte)) ==
              if nbyte * Lc3Unit(sampleRate) % dms == 0 then nbyte else nbyte - 1
  {
    var d := Lc3Unit(sampleRate);
    var x := nbyte * d;
    BackAndForth(nbyte, d, dms);
    SmallWord(x);
    SmallWord(x / dms * dms);
    SmallHalfWord(nbyte);
    SmallHalfWord(x / dms * dms / d);
    hide ToUint32;
    hide ToUint16;
  }

  lemma SmallWord(x: nat)
    requires x < WORD
    ensures ToUint32(x) == x
  {
  }

  lemma SmallHalfWord(x: int)
    ensures 0 <= x < 0x1_0000 ==> ToUint16(x) == x
  {
  }

  lemma BackAndForth(n: nat, d: nat, dms: nat)
    requires 0 < dms <= d
    ensures n * d / dms * dms <= n * d
    ensures n * d / dms * dms / d == if n * d % dms == 0 then n else n - 1
  {
    var w := n * d % dms;
    DivMod(n * d, dms);
    if w == 0 {
      DivExact(n, d, 0);
    } else {
      assert (n - 1) * d + (d - w) == n * d - w;
      DivExact(n - 1, d, d - w);
    }
  }

  lemma DivMod(x: nat, d: nat)
    requires d > 0
    ensures x / d * d == x - x % d
  {
  }

  lemma DivExact(n: int, d: nat, w: nat)
    requires n >= 0 && w < d
    ensures (n * d + w) / d == n
  {
    DivLt(n * d + w, d, n);
    if (n * d + w) / d < n {
      DivGt(n * d + w, d, n - 1);
    }
  }

  /** A 7.5 ms frame of 40 bytes: read and set again, it has 39. */
  lemma Lc3LosesAByte()
    ensures Lc3Bytes(48000, 75, Lc3BitRate(48000, 75, 40)) == 39
  {
  }

  /**
    A frame lasts `dms` tenths of a millisecond, at 44.1 kHz longer by 480 to 441. Its bytes are as
    many as the bit rate pays for in that time, and no more.
   */
  lemma Lc3FillsFrame(sampleRate: nat, dms: nat, bitrate: nat)
    requires bitrate * dms < WORD && bitrate * dms < 0x1_0000 * 73_500
    ensures var n := Lc3Bytes(sampleRate, dms, bitrate);
            if sampleRate == 44100
            then n * 8 * 10_000 * 441 <= bitrate * dms * 480 < (n + 1) * 8 * 10_000 * 441
            else n * 8 * 10_000 <= bitrate * dms < (n + 1) * 8 * 10_000
  {
    var x, d := bitrate * dms, Lc3Unit(sampleRate);
    SmallWord(x);
    DivRange(x, d);
    DivBelow(x, d, 0x1_0000);
    SmallHalfWord(x / d);
    hide ToUint16;
    hide ToUint32;
  }

  lemma DivBelow(x: nat, d: nat, r: nat)
    requires d > 0 && x < r * d
    ensures x / d < r
  {
    if x / d >= r {
      MulLe(r, x / d, d);
      DivRange(x, d);
    }
  }

  /** The bit rate read back is never more than was set. */
  lemma Lc3GetAfterSet(sampleRate: nat, dms: nat, bitrate: nat)
    requires 0 < dms < 256 && bitrate * dms < WORD
    requires bitrate * dms / Lc3Unit(sampleRate) < 0x1_0000
    ensures Lc3BitRate(sampleRate, dms, Lc3Bytes(sampleRate, dms, bitrate)) <= bitrate
  {
    var d := Lc3Unit(sampleRate);
    var n := bitrate * dms / d;
    DivMod(bitrate * dms, d);
    SmallWord(bitrate * dms);
    SmallHalfWord(n);
    SmallWord(n * d);
    DivLe(n * d, dms, bitrate);
    hide ToUint32;
    hide ToUint16;
  }
}
