/**
  Reading an HTTP response into a buffer that grows. However the network cuts the
  stream, the result is the body of the whole stream, as long as the stream fits.
 */
module HttpReader {
  import opened Text

  const INITIAL_CAP := 512 * 1024
  const GROW_STEP := 512 * 1024
  const MAX_CAP := 4 * 1024 * 1024
  /** Less free room than this makes the buffer grow. */
  const RESERVE := 4096
  /** The longest stream whose reading does not depend on how it is delivered. */
  const SAFE_LENGTH := MAX_CAP - RESERVE + 1

  datatype Response = Failed | Body(bytes: string)

  // ----- what a response is -----

  /** An empty line ends at `h`. */
  predicate Mark(s: string, h: nat) {
    4 <= h <= |s| && s[h - 4] == '\r' && s[h - 3] == '\n' && s[h - 2] == '\r' && s[h - 1] == '\n'
  }

  /** The end of the first empty line, from `from` on; 0 if there is none. */
  function HeaderEnd(s: string, from: nat): (h: nat)
    ensures h != 0 ==> from <= h && Mark(s, h)
    ensures forall k :: from <= k && (h == 0 || k < h) ==> !Mark(s, k)
    decreases |s| - from
  {
    if Mark(s, from) then from
    else if from >= |s| then 0
    else HeaderEnd(s, from + 1)
  }

  /** The bytes after the first empty line, if there is one and at least four bytes follow. */
  function BodyOf(s: string): Response {
    var h := HeaderEnd(s, 0);
    if h == 0 || |s| - h < 4 then Failed else Body(s[h..])
  }

  /** The empty line that ends the headers begins at `h`: it is the first one. */
  predicate HeadersEndAt(s: string, h: nat) {
    At(s, h, "\r\n\r\n") && forall k :: 0 <= k < h ==> !At(s, k, "\r\n\r\n")
  }

  lemma MarkIs(s: string, h: nat)
    ensures Mark(s, h + 4) <==> At(s, h, "\r\n\r\n")
  {
    if At(s, h, "\r\n\r\n") {
      AtChar(s, h, "\r\n\r\n", 0);
      AtChar(s, h, "\r\n\r\n", 1);
      AtChar(s, h, "\r\n\r\n", 2);
      AtChar(s, h, "\r\n\r\n", 3);
    }
  }

  /** The body is everything after the first empty line, if that is at least four bytes. */
  lemma BodyIs(s: string, h: nat)
    requires HeadersEndAt(s, h)
    ensures BodyOf(s) == if |s| >= h + 8 then Body(s[h + 4..]) else Failed
  {
    forall k: nat | k < h + 4
      ensures !Mark(s, k)
    {
      if k >= 4 {
        MarkIs(s, k - 4);
      }
    }
    MarkIs(s, h);
    var e := HeaderEnd(s, 0);
    hide HeaderEnd;
    hide At;
    assert e == h + 4;
  }

  /** Without an empty line there is none. */
  lemma NoBody(s: string)
    requires forall h: nat :: !At(s, h, "\r\n\r\n")
    ensures BodyOf(s) == Failed
  {
    var e := HeaderEnd(s, 0);
    if e != 0 {
      MarkIs(s, e - 4);
    }
  }

  /** A response put together from its headers and its body. */
  lemma HeadersEndAfter(head: string, body: string)
    requires forall k :: 0 <= k < |head| ==> !At(head + "\r\n\r\n", k, "\r\n\r\n")
    ensures HeadersEndAt(head + "\r\n\r\n" + body, |head|)
    ensures (head + "\r\n\r\n" + body)[|head| + 4..] == body
  {
    var a := head + "\r\n\r\n";
    var s := a + body;
    assert s[|head|..|head| + 4] == "\r\n\r\n";
    forall k | 0 <= k < |head|
      ensures !At(s, k, "\r\n\r\n")
    {
      assert s[k..k + 4] == a[k..k + 4];
      assert !At(a, k, "\r\n\r\n");
    }
  }

  lemma BodyOfParts(head: string, body: string)
    requires forall k :: 0 <= k < |head| ==> !At(head + "\r\n\r\n", k, "\r\n\r\n")
    ensures BodyOf(head + "\r\n\r\n" + body) == if |body| >= 4 then Body(body) else Failed
  {
    HeadersEndAfter(head, body);
    BodyIs(head + "\r\n\r\n" + body, |head|);
    hide BodyOf;
    hide HeadersEndAt;
  }

  /** A header end found in a part of the stream is that of the whole stream. */
  lemma HeaderEndStays(s: string, t: nat, u: nat)
    requires t <= u <= |s| && HeaderEnd(s[..t], 0) != 0
    ensures HeaderEnd(s[..u], 0) == HeaderEnd(s[..t], 0)
  {
    var h, g := HeaderEnd(s[..t], 0), HeaderEnd(s[..u], 0);
    assert forall k: nat :: k <= t ==> (Mark(s[..t], k) <==> Mark(s[..u], k));
  }

  // ----- how much is read -----

  /** What one receive gets: what the network has, at least a byte, and no more than asked. */
  function Grant(asked: nat, left: nat, wishes: seq<nat>): (r: nat)
    requires 0 < asked && 0 < left
    ensures 0 < r <= asked && r <= left
  {
    var most := if asked < left then asked else left;
    if wishes == [] || wishes[0] >= most then most
    else if wishes[0] == 0 then 1
    else wishes[0]
  }

  function Rest(wishes: seq<nat>): seq<nat> {
    if wishes == [] then [] else wishes[1..]
  }

  /** How many of `n` bytes are read, when the network delivers them in portions `wishes`. */
  function Received(n: nat, wishes: seq<nat>, canGrow: nat -> bool, cap: nat, total: nat): (t: nat)
    requires total <= n && total + RESERVE <= cap
    ensures total <= t <= n
    decreases n - total
  {
    if total == n then n
    else
      var t := total + Grant(cap - total - 1, n - total, wishes);
      if t + RESERVE <= cap then Received(n, Rest(wishes), canGrow, cap, t)
      else if cap >= MAX_CAP || !canGrow(cap + GROW_STEP) then t
      else Received(n, Rest(wishes), canGrow, cap + GROW_STEP, t)
  }

  /** One receive of the count. */
  lemma ReceivedStep(n: nat, wishes: seq<nat>, canGrow: nat -> bool, cap: nat, total: nat)
    requires total <= n && total + RESERVE <= cap
    ensures total == n ==> Received(n, wishes, canGrow, cap, total) == n
    ensures total < n ==>
              var t := total + Grant(cap - total - 1, n - total, wishes);
              Received(n, wishes, canGrow, cap, total) ==
                if t + RESERVE <= cap then Received(n, Rest(wishes), canGrow, cap, t)
                else if cap >= MAX_CAP || !canGrow(cap + GROW_STEP) then t
                else Received(n, Rest(wishes), canGrow, cap + GROW_STEP, t)
  {
  }

  /** Memory is never short. */
  function Always(): nat -> bool { _ => true }

  lemma {:induction false} SafeStreamIsReadWhole(n: nat, wishes: seq<nat>, cap: nat, total: nat)
    requires total <= n <= SAFE_LENGTH && total + RESERVE <= cap
    ensures Received(n, wishes, Always(), cap, total) == n
    decreases n - total
  {
    if total < n {
      var t := total + Grant(cap - total - 1, n - total, wishes);
      if t + RESERVE <= cap {
        SafeStreamIsReadWhole(n, Rest(wishes), cap, t);
      } else if cap < MAX_CAP {
        SafeStreamIsReadWhole(n, Rest(wishes), cap + GROW_STEP, t);
      }
    }
  }

  /** A buffer of `c` bytes has no reserve after `t` of them, and does not grow. */
  predicate Exhausted(c: nat, t: nat, canGrow: nat -> bool) {
    c % 524_288 == 0 && t < c < t + 4096 && (c >= 4_194_304 || !canGrow(c + 524_288))
  }

  /**
    Reading stops before the end of the stream only where fewer than 4096 bytes are left of a buffer of
    512 KiB steps that has 4 MiB, or that memory does not allow to grow.
   */
  lemma {:induction false} StopsEarly(n: nat, wishes: seq<nat>, canGrow: nat -> bool, cap: nat, total: nat)
    requires total <= n && total + 4096 <= cap && cap % 524_288 == 0
    ensures var t := Received(n, wishes, canGrow, cap, total);
            t < n ==> exists c: nat :: cap <= c && Exhausted(c, t, canGrow)
    decreases n - total
  {
    if total < n {
      var t := total + Grant(cap - total - 1, n - total, wishes);
      assert t < cap + 4096 && (t + 4096 > cap && (cap >= 4_194_304 || !canGrow(cap + 524_288)) ==> Exhausted(cap, t, canGrow));
      if t + 4096 <= cap {
        StopsEarly(n, Rest(wishes), canGrow, cap, t);
      } else if cap < 4_194_304 && canGrow(cap + 524_288) {
        StopsEarly(n, Rest(wishes), canGrow, cap + 524_288, t);
      }
    }
  }

  function Ones(n: nat): seq<nat> { seq(n, _ => 1) }

  /** Delivered byte by byte, a longer stream is cut as soon as the largest buffer has no reserve. */
  lemma {:induction false} ByteByByteIsCut(n: nat, cap: nat, total: nat)
    requires total <= SAFE_LENGTH - 1 < n - 1 && total + RESERVE <= cap <= MAX_CAP && cap % GROW_STEP == 0
    ensures Received(n, Ones(n - total), Always(), cap, total) == SAFE_LENGTH
    decreases n - total
  {
    var t := total + 1;
    assert Grant(cap - total - 1, n - total, Ones(n - total)) == 1;
    assert Rest(Ones(n - total)) == Ones(n - t);
    if t + RESERVE <= cap {
      ByteByByteIsCut(n, cap, t);
    } else if cap < MAX_CAP {
      ByteByByteIsCut(n, cap + GROW_STEP, t);
    }
  }

  function Read(n: nat, wishes: seq<nat>): (t: nat)
    ensures t <= n
  {
    Received(n, wishes, Always(), INITIAL_CAP, 0)
  }

  /** The stream is read whole, however it is delivered, exactly when it is no longer than that. */
  lemma SegmentationIndependent(n: nat)
    ensures (forall wishes: seq<nat> :: Read(n, wishes) == n) <==> n <= 4_190_209
  {
    if n <= SAFE_LENGTH {
      forall wishes: seq<nat>
        ensures Read(n, wishes) == n
      {
        SafeStreamIsReadWhole(n, wishes, INITIAL_CAP, 0);
      }
    } else {
      ByteByByteIsCut(n, INITIAL_CAP, 0);
      assert Read(n, Ones(n)) != n;
    }
  }

  /** What the reader answers when memory is not short. */
  function Answer(stream: string, wishes: seq<nat>): Response {
    BodyOf(stream[..Read(|stream|, wishes)])
  }

  /** A part of a stream without a body has none either; and a shorter part has not the same body. */
  lemma BodyOfPart(stream: string, t: nat)
    requires t <= |stream|
    ensures BodyOf(stream) == Failed ==> BodyOf(stream[..t]) == Failed
    ensures BodyOf(stream).Body? && t < |stream| ==> BodyOf(stream[..t]) != BodyOf(stream)
  {
    assert stream[..|stream|] == stream;
    var h := HeaderEnd(stream[..t], 0);
    if h != 0 {
      HeaderEndStays(stream, t, |stream|);
      assert |stream[..t][h..]| == t - h && |stream[h..]| == |stream| - h;
    }
  }

  /**
    The response does not depend on how the stream is delivered, exactly when the stream is
    no longer than that, or has no body at all.
   */
  lemma ResponseIndependent(stream: string)
    ensures (forall wishes: seq<nat> :: Answer(stream, wishes) == BodyOf(stream)) <==>
            |stream| <= 4_190_209 || BodyOf(stream) == Failed
  {
    hide BodyOf;
    hide Read;
    var n := |stream|;
    assert stream[..n] == stream;
    SegmentationIndependent(n);
    if BodyOf(stream) == Failed {
      forall wishes: seq<nat>
        ensures Answer(stream, wishes) == BodyOf(stream)
      {
        BodyOfPart(stream, Read(n, wishes));
      }
    } else if n > SAFE_LENGTH {
      var wishes: seq<nat> :| Read(n, wishes) != n;
      BodyOfPart(stream, Read(n, wishes));
      assert Answer(stream, wishes) != BodyOf(stream);
    }
  }

  // ----- the reader -----

  /** One receive. The reader never asks for less than 4095 bytes, nor past the end of the buffer. */
  method Recv(stream: string, buf: array<char>, total: nat, asked: nat, wishes: seq<nat>) returns (r: nat)
    requires 4095 <= asked && total + asked < buf.Length && total <= |stream|
    modifies buf
    ensures r == if total == |stream| then 0 else Grant(asked, |stream| - total, wishes)
    ensures buf[..total] == old(buf[..total]) && buf[total..total + r] == stream[total..total + r]
  {
    if total == |stream| {
      return 0;
    }
    r := Grant(asked, |stream| - total, wishes);
    forall k | 0 <= k < r {
      buf[total + k] := stream[total + k];
    }
  }

  /** The scan for the empty line, over all that has been read. */
  method FindHeader(buf: array<char>, total: nat) returns (h: nat)
    requires total <= buf.Length
    ensures h == HeaderEnd(buf[..total], 0)
  {
    h := 0;
    var j := 0;
    while j < total - 3
      invariant 0 <= j && h == 0
      invariant forall k :: 0 <= k < j + 4 ==> !Mark(buf[..total], k)
    {
      if buf[j] == '\r' && buf[j + 1] == '\n' && buf[j + 2] == '\r' && buf[j + 3] == '\n' {
        h := j + 4;
        assert Mark(buf[..total], h);
        break;
      }
      j := j + 1;
    }
  }

  /** A larger buffer with the same beginning. */
  method Grow(buf: array<char>, total: nat, cap: nat) returns (bigger: array<char>)
    requires total <= buf.Length <= cap
    ensures fresh(bigger) && bigger.Length == cap && bigger[..total] == buf[..total]
  {
    bigger := new char[cap](_ => '\0');
    forall k | 0 <= k < total {
      bigger[k] := buf[k];
    }
  }

  /** The receive loop: how much was read, into what buffer, and where the header ends in it. */
  method Receive(stream: string, portions: seq<nat>, canAlloc: nat -> bool, first: array<char>)
    returns (buf: array<char>, total: nat, hdrEnd: nat)
    requires first.Length == INITIAL_CAP
    modifies first
    ensures total == Received(|stream|, portions, canAlloc, INITIAL_CAP, 0)
    ensures total <= buf.Length && buf[..total] == stream[..total]
    ensures hdrEnd == HeaderEnd(stream[..total], 0)
  {
    hide HeaderEnd;
    hide Mark;
    hide Grant;
    hide Rest;
    hide Received;
    var cap := INITIAL_CAP;
    buf := first;
    total, hdrEnd := 0, 0;
    NoHeaderYet();
    assert stream[..0] == "";
    var wishes := portions;
    while true
      invariant buf.Length == cap && total <= |stream| && total + RESERVE <= cap
      invariant buf == first || fresh(buf)
      invariant buf[..total] == stream[..total]
      invariant hdrEnd == HeaderEnd(stream[..total], 0)
      invariant Received(|stream|, wishes, canAlloc, cap, total)
                == Received(|stream|, portions, canAlloc, INITIAL_CAP, 0)
      decreases |stream| - total
    {
      ReceivedStep(|stream|, wishes, canAlloc, cap, total);
      var n := Recv(stream, buf, total, cap - total - 1, wishes);
      if n <= 0 {
        break;
      }
      Appended(buf[..total + n], stream, total, n);
      if hdrEnd != 0 {
        HeaderEndStays(stream, total, total + n);
      }
      total := total + n;
      wishes := Rest(wishes);
      if hdrEnd == 0 {
        hdrEnd := FindHeader(buf, total);
      }
      if total > cap - RESERVE {
        if cap >= MAX_CAP {
          break;
        }
        var newCap := cap + GROW_STEP;
        if !canAlloc(newCap) {
          break;
        }
        buf := Grow(buf, total, newCap);
        cap := newCap;
      }
    }
  }

  lemma NoHeaderYet()
    ensures HeaderEnd("", 0) == 0
  {
  }

  lemma Appended(bytes: string, stream: string, total: nat, n: nat)
    requires total + n <= |stream| && |bytes| == total + n
    requires bytes[..total] == stream[..total] && bytes[total..] == stream[total..total + n]
    ensures bytes == stream[..total + n]
  {
    assert bytes == bytes[..total] + bytes[total..];
  }

  /** The response to a request whose answer is `stream`. `canAlloc` says which allocations succeed. */
  method Get(stream: string, portions: seq<nat>, canAlloc: nat -> bool) returns (r: Response)
    ensures !canAlloc(524_288) ==> r == Failed
    ensures canAlloc(524_288) ==>
              var part := BodyOf(stream[..Received(|stream|, portions, canAlloc, 524_288, 0)]);
              r == if part.Body? && canAlloc(|part.bytes|) then part else Failed
  {
    hide Received;
    var cap := INITIAL_CAP;
    if !canAlloc(cap) {
      return Failed;
    }
    var first := new char[cap](_ => '\0');
    var buf, total, hdrEnd := Receive(stream, portions, canAlloc, first);
    if hdrEnd == 0 || total - hdrEnd < 4 {
      return Failed;
    }
    var bodyLen := total - hdrEnd;
    if !canAlloc(bodyLen) {
      return Failed;
    }
    assert buf[hdrEnd..total] == buf[..total][hdrEnd..];
    return Body(buf[hdrEnd..total]);
  }

  /** When memory is not short and the stream fits, the portions do not show in the result. */
  method GetSafe(stream: string, portions: seq<nat>) returns (r: Response)
    requires |stream| <= 4_190_209
    ensures r == BodyOf(stream)
    ensures forall h: nat :: HeadersEndAt(stream, h) ==> r == if |stream| >= h + 8 then Body(stream[h + 4..]) else Failed
    ensures (forall h: nat :: !At(stream, h, "\r\n\r\n")) ==> r == Failed
  {
    forall h: nat | HeadersEndAt(stream, h)
      ensures BodyOf(stream) == if |stream| >= h + 8 then Body(stream[h + 4..]) else Failed
    {
      BodyIs(stream, h);
    }
    if forall h: nat :: !At(stream, h, "\r\n\r\n") {
      NoBody(stream);
    }
    hide BodyOf;
    hide At;
    SafeStreamIsReadWhole(|stream|, portions, INITIAL_CAP, 0);
    assert stream[..|stream|] == stream;
    r := Get(stream, portions, Always());
  }
}
