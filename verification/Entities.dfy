/**
  Undoing the escapes in track metadata: the five named XML entities, and numeric
  character references, which become UTF-8. Characters stand for bytes.
 */
module Entities {
  import opened Text

  // ----- named entities -----

  /** The character a named entity stands for, and the length of its name; itself otherwise. */
  function Entity(s: string, i: nat): (r: (char, nat))
    requires i < |s|
    ensures r.1 >= 1
  {
    if At(s, i, "&amp;") then ('&', 5)
    else if At(s, i, "&lt;") then ('<', 4)
    else if At(s, i, "&gt;") then ('>', 4)
    else if At(s, i, "&quot;") then ('\"', 6)
    else if At(s, i, "&apos;") then ('\'', 6)
    else (s[i], 1)
  }

  /** The text from `i` up to `len`, unescaped. A name may reach beyond `len`. */
  function Unescape(s: string, i: nat, len: nat): string
    requires len <= |s|
    decreases |s| - i
  {
    if i >= len then ""
    else [Entity(s, i).0] + Unescape(s, i + Entity(s, i).1, len)
  }

  /** The comparisons at one position. */
  method MatchEntity(src: string, i: nat) returns (c: char, n: nat)
    requires i < |src|
    ensures (c, n) == Entity(src, i)
  {
    c, n := src[i], 1;
    if src[i] == '&' {
      if At(src, i, "&amp;") {
        c, n := '&', 5;
      } else if At(src, i, "&lt;") {
        c, n := '<', 4;
      } else if At(src, i, "&gt;") {
        c, n := '>', 4;
      } else if At(src, i, "&quot;") {
        c, n := '\"', 6;
      } else if At(src, i, "&apos;") {
        c, n := '\'', 6;
      }
    } else {
      NoEntity(src, i);
    }
  }

  lemma NoEntity(s: string, i: nat)
    requires i < |s| && s[i] != '&'
    ensures Entity(s, i) == (s[i], 1)
  {
    assert forall p :: p in {"&amp;", "&lt;", "&gt;", "&quot;", "&apos;"} && At(s, i, p) ==> s[i] == s[i..i + |p|][0] == p[0];
  }

  method HtmlUnescape(dst: array<char>, dstSize: nat, src: string, srcLen: nat)
    requires 0 < dstSize <= dst.Length && srcLen <= |src|
    modifies dst
    ensures var r := Take(Unescape(src, 0, srcLen), dstSize - 1);
            dst[..|r|] == r && dst[|r|] == '\0'
    ensures forall k :: dstSize <= k < dst.Length ==> dst[k] == old(dst[k])
  {
    hide Entity;
    ghost var all := Unescape(src, 0, srcLen);
    var di := 0;
    var i := 0;
    while i < srcLen && di < dstSize - 1
      invariant 0 <= di <= dstSize - 1 && di <= |all|
      invariant dst[..di] == all[..di] && Unescape(src, i, srcLen) == all[di..]
      invariant forall k :: dstSize <= k < dst.Length ==> dst[k] == old(dst[k])
      decreases srcLen - i
    {
      var c, n := MatchEntity(src, i);
      assert all[di..][0] == c && all[di..][1..] == all[di + 1..];
      dst[di] := c;
      di := di + 1;
      i := i + n;
    }
    dst[di] := '\0';
  }

  function EscapeChar(c: char): (r: string)
    ensures 1 <= |r|
  {
    if c == '&' then "&amp;"
    else if c == '<' then "&lt;"
    else if c == '>' then "&gt;"
    else if c == '\"' then "&quot;"
    else if c == '\'' then "&apos;"
    else [c]
  }

  function Escape(s: string): string {
    if s == "" then "" else EscapeChar(s[0]) + Escape(s[1..])
  }

  lemma UnescapeShift(pre: string, s: string, i: nat)
    requires i <= |s|
    ensures Unescape(pre + s, |pre| + i, |pre + s|) == Unescape(s, i, |s|)
    decreases |s| - i
  {
    hide Entity;
    if i < |s| {
      EntityShift(pre, s, i);
      if i + Entity(s, i).1 <= |s| {
        UnescapeShift(pre, s, i + Entity(s, i).1);
      }
    }
  }

  lemma AtShift(pre: string, s: string, i: nat, p: string)
    ensures At(pre + s, |pre| + i, p) <==> At(s, i, p)
  {
    if i + |p| <= |s| {
      assert (pre + s)[|pre| + i..|pre| + i + |p|] == s[i..i + |p|];
    }
  }

  lemma EntityShift(pre: string, s: string, i: nat)
    requires i < |s|
    ensures Entity(pre + s, |pre| + i) == Entity(s, i)
  {
    AtShift(pre, s, i, "&amp;");
    AtShift(pre, s, i, "&lt;");
    AtShift(pre, s, i, "&gt;");
    AtShift(pre, s, i, "&quot;");
    AtShift(pre, s, i, "&apos;");
    hide At;
  }

  /** An escaped character is one entity, whatever follows. */
  lemma EntityOfEscape(c: char, rest: string)
    ensures Entity(EscapeChar(c) + rest, 0) == (c, |EscapeChar(c)|)
  {
    var s := EscapeChar(c) + rest;
    assert s[..|EscapeChar(c)|] == EscapeChar(c);
    if c in "&<>\"'" {
      assert s[1] == EscapeChar(c)[1];
      assert s[2] == EscapeChar(c)[2];
    } else {
      NoEntity(s, 0);
    }
  }

  /** Unescaping undoes escaping: every character comes back once, and none is unescaped twice. */
  lemma {:induction false} UnescapeEscape(s: string)
    ensures Unescape(Escape(s), 0, |Escape(s)|) == s
    decreases |s|
  {
    if s != "" {
      var rest := Escape(s[1..]);
      EntityOfEscape(s[0], rest);
      UnescapeEscape(s[1..]);
      UnescapeShift(EscapeChar(s[0]), rest, 0);
    }
  }

  /** So a buffer of any size receives as much of the original as it can hold. */
  method UnescapeOfEscape(dst: array<char>, dstSize: nat, original: string)
    requires 0 < dstSize <= dst.Length
    modifies dst
    ensures var r := Take(original, dstSize - 1); dst[..|r|] == r && dst[|r|] == '\0'
  {
    UnescapeEscape(original);
    HtmlUnescape(dst, dstSize, Escape(original), |Escape(original)|);
  }

  // ----- texts in which not every ampersand is escaped -----

  /** One of the five names stands at the beginning. */
  predicate NameFirst(s: string) {
    || "&amp;" <= s || "&lt;" <= s || "&gt;" <= s || "&quot;" <= s || "&apos;" <= s
  }

  /** A character as it is written: by its name, or raw. */
  datatype Written = Named(c: char) | Raw(c: char)

  function Write(w: Written): (r: string)
    ensures r != ""
  {
    if w.Raw? then [w.c] else EscapeChar(w.c)
  }

  function WriteAll(ws: seq<Written>): string {
    if ws == [] then "" else Write(ws[0]) + WriteAll(ws[1..])
  }

  function Meant(ws: seq<Written>): string {
    seq(|ws|, i requires 0 <= i < |ws| => ws[i].c)
  }

  /** No raw ampersand begins a name. */
  predicate NoRawName(ws: seq<Written>) {
    forall i :: 0 <= i < |ws| && ws[i] == Raw('&') ==> !NameFirst(WriteAll(ws[i..]))
  }

  /** A raw character stands for itself, an ampersand too if it begins no name. */
  lemma EntityOfRaw(c: char, rest: string)
    requires c == '&' ==> !NameFirst([c] + rest)
    ensures Entity([c] + rest, 0) == (c, 1)
  {
    var s := [c] + rest;
    if c == '&' {
      NameAt(s, "&amp;");
      NameAt(s, "&lt;");
      NameAt(s, "&gt;");
      NameAt(s, "&quot;");
      NameAt(s, "&apos;");
      hide At;
    } else {
      NoEntity(s, 0);
    }
  }

  lemma NameAt(s: string, name: string)
    ensures At(s, 0, name) <==> name <= s
  {
    assert |name| <= |s| ==> s[0..|name|] == s[..|name|];
  }

  /** Unescaping a mix of names and raw characters gives the characters, as long as no raw ampersand begins a name. */
  lemma {:induction false} UnescapeMix(ws: seq<Written>)
    requires NoRawName(ws)
    ensures Unescape(WriteAll(ws), 0, |WriteAll(ws)|) == Meant(ws)
    decreases |ws|
  {
    if ws != [] {
      var first, rest := Write(ws[0]), WriteAll(ws[1..]);
      assert WriteAll(ws) == first + rest;
      if ws[0].Raw? {
        assert ws[0..] == ws;
        EntityOfRaw(ws[0].c, rest);
      } else {
        EntityOfEscape(ws[0].c, rest);
      }
      RestHasNoRawName(ws);
      hide NoRawName;
      UnescapeMix(ws[1..]);
      UnescapeStep(first, rest, ws[0].c);
      assert Meant(ws) == [ws[0].c] + Meant(ws[1..]);
    }
  }

  lemma RestHasNoRawName(ws: seq<Written>)
    requires ws != [] && NoRawName(ws)
    ensures NoRawName(ws[1..])
  {
    hide NameFirst;
    hide WriteAll;
    forall i | 0 <= i < |ws| - 1 && ws[1..][i] == Raw('&')
      ensures !NameFirst(WriteAll(ws[1..][i..]))
    {
      assert ws[1..][i..] == ws[i + 1..];
      assert ws[i + 1] == Raw('&');
    }
  }

  /** What begins with something that stands for one character unescapes to it and the rest. */
  lemma UnescapeStep(first: string, rest: string, c: char)
    requires first != "" && Entity(first + rest, 0) == (c, |first|)
    ensures Unescape(first + rest, 0, |first + rest|) == [c] + Unescape(rest, 0, |rest|)
  {
    hide Entity;
    UnescapeShift(first, rest, 0);
    assert Unescape(first + rest, 0, |first + rest|) == [c] + Unescape(first + rest, |first|, |first + rest|);
  }

  function AllRaw(s: string): seq<Written> {
    seq(|s|, i requires 0 <= i < |s| => Raw(s[i]))
  }

  lemma {:induction false} WriteAllRaw(s: string)
    ensures WriteAll(AllRaw(s)) == s
    decreases |s|
  {
    if s != "" {
      WriteAllRaw(s[1..]);
      assert AllRaw(s)[1..] == AllRaw(s[1..]);
      assert AllRaw(s)[0] == Raw(s[0]);
    }
  }

  /** A text in which no name stands is left as it is, ampersands and all. */
  lemma UnescapeNothing(s: string)
    requires forall i :: 0 <= i < |s| && s[i] == '&' ==> !NameFirst(s[i..])
    ensures Unescape(s, 0, |s|) == s
  {
    hide NameFirst;
    hide WriteAll;
    hide Unescape;
    var ws := AllRaw(s);
    WriteAllRaw(s);
    forall i | 0 <= i < |ws| && ws[i] == Raw('&')
      ensures !NameFirst(WriteAll(ws[i..]))
    {
      assert s[i] == '&';
      RawFrom(s, i);
      WriteAllRaw(s[i..]);
    }
    UnescapeMix(ws);
    MeantRaw(s);
  }

  lemma RawFrom(s: string, i: nat)
    requires i <= |s|
    ensures AllRaw(s)[i..] == AllRaw(s[i..])
  {
  }

  lemma MeantRaw(s: string)
    ensures Meant(AllRaw(s)) == s
  {
  }

  /** A name that begins before the end of the part to be unescaped counts, even if it goes on behind it. */
  lemma NameAcrossEnd()
    ensures Unescape("&lt;", 0, 1) == "<"
  {
    assert At("&lt;", 0, "&lt;");
    assert !At("&lt;", 0, "&amp;");
  }

  // ----- UTF-8 -----

  const MAX_CODE := 0x10FFFF
  /** References are read into words of 32 bits. */
  const WORD := 0x1_0000_0000

  /** The bytes the decoder writes for a reference. The fields it combines do not overlap, so they are added here. */
  function Utf8(cp: nat): (r: string)
    requires cp < 0x1_0000_0000
    ensures 1 <= |r| <= 4
  {
    if cp < 0x80 then [cp as char]
    else if cp < 0x800 then [(0xC0 + cp / 64) as char, Tail(cp)]
    else if cp < 0x1_0000 then [(0xE0 + cp / 4096) as char, Tail(cp / 64), Tail(cp)]
    else [(0xF0 + cp / 0x4_0000 % 16) as char, Tail(cp / 4096), Tail(cp / 64), Tail(cp)]
  }

  function Tail(x: nat): char { (0x80 + x % 64) as char }

  predicate IsTail(c: char) { 0x80 <= c as int < 0xC0 }

  /** The lead byte and length that section 3 of RFC 3629 gives, and no NUL. */
  lemma Utf8Shape(cp: nat)
    requires 0 < cp < WORD
    ensures var r := Utf8(cp);
            && |r| == (if cp < 0x80 then 1 else if cp < 0x800 then 2 else if cp < 0x1_0000 then 3 else 4)
            && (if |r| == 1 then 0 < r[0] as int < 0x80
                else if |r| == 2 then 0xC2 <= r[0] as int < 0xE0
                else if |r| == 3 then 0xE0 <= r[0] as int < 0xF0
                else 0xF0 <= r[0] as int < (if cp <= MAX_CODE then 0xF5 else 0x100))
            && forall i :: 1 <= i < |r| ==> IsTail(r[i])
  {
  }

  /** The code point that begins at `p`, and where it ends: a decoder that trusts lead bytes. */
  function DecodeAt(s: string, p: nat): (r: (nat, nat))
    requires p < |s|
    ensures r.1 > p
  {
    var b := s[p] as int;
    var n := if b < 0x80 then 1 else if b < 0xE0 then 2 else if b < 0xF0 then 3 else 4;
    if p + n > |s| || b < 0x80 then (b, p + 1)
    else if n == 2 then (b % 32 * 64 + Low(s[p + 1]), p + 2)
    else if n == 3 then (b % 16 * 4096 + Low(s[p + 1]) * 64 + Low(s[p + 2]), p + 3)
    else (b % 8 * 0x4_0000 + Low(s[p + 1]) * 4096 + Low(s[p + 2]) * 64 + Low(s[p + 3]), p + 4)
  }

  function Low(c: char): nat { c as int % 64 }

  function FromUtf8(s: string, p: nat): seq<nat>
    decreases |s| - p
  {
    if p >= |s| then [] else [DecodeAt(s, p).0] + FromUtf8(s, DecodeAt(s, p).1)
  }

  /** Six bits at a time. */
  lemma Sextets(cp: nat)
    ensures cp == cp / 64 * 64 + cp % 64
    ensures cp / 4096 == cp / 64 / 64 && cp / 0x4_0000 == cp / 4096 / 64
  {
  }

  lemma LowTail(x: nat)
    ensures Low(Tail(x)) == x % 64
  {
  }

  lemma DecodeTwo(s: string, p: nat, cp: nat)
    requires 0x80 <= cp < 0x800 && p + 2 <= |s|
    requires s[p] as int == 0xC0 + cp / 64 && s[p + 1] == Tail(cp)
    ensures DecodeAt(s, p) == (cp, p + 2)
  {
    LowTail(cp);
    hide Tail;
    hide Low;
    Sextets(cp);
  }

  lemma DecodeThree(s: string, p: nat, cp: nat)
    requires 0x800 <= cp < 0x1_0000 && p + 3 <= |s|
    requires s[p] as int == 0xE0 + cp / 4096 && s[p + 1] == Tail(cp / 64) && s[p + 2] == Tail(cp)
    ensures DecodeAt(s, p) == (cp, p + 3)
  {
    LowTail(cp);
    LowTail(cp / 64);
    hide Tail;
    hide Low;
    Sextets(cp);
    Sextets(cp / 64);
  }

  lemma DecodeFour(s: string, p: nat, cp: nat)
    requires 0x1_0000 <= cp <= MAX_CODE && p + 4 <= |s|
    requires s[p] as int == 0xF0 + cp / 0x4_0000 % 16
    requires s[p + 1] == Tail(cp / 4096) && s[p + 2] == Tail(cp / 64) && s[p + 3] == Tail(cp)
    ensures DecodeAt(s, p) == (cp, p + 4)
  {
    LowTail(cp);
    LowTail(cp / 64);
    LowTail(cp / 4096);
    hide Tail;
    hide Low;
    Sextets(cp);
    Sextets(cp / 64);
    Sextets(cp / 4096);
    assert cp / 0x4_0000 < 8;
  }

  /** An encoded code point decodes back, wherever it stands. */
  lemma DecodeUtf8(s: string, p: nat, cp: nat)
    requires cp <= MAX_CODE && At(s, p, Utf8(cp))
    ensures DecodeAt(s, p) == (cp, p + |Utf8(cp)|)
  {
    hide DecodeAt;
    hide Tail;
    var r := Utf8(cp);
    assert forall i :: 0 <= i < |r| ==> s[p + i] == s[p..p + |r|][i] == r[i];
    assert s[p + 0] == r[0];
    if cp >= 0x1_0000 {
      DecodeFour(s, p, cp);
    } else if cp >= 0x800 {
      DecodeThree(s, p, cp);
    } else if cp >= 0x80 {
      DecodeTwo(s, p, cp);
    } else {
      DecodeOne(s, p);
    }
  }

  lemma DecodeOne(s: string, p: nat)
    requires p < |s| && s[p] as int < 0x80
    ensures DecodeAt(s, p) == (s[p] as int, p + 1)
  {
  }

  predicate Surrogate(cp: nat) { 0xD800 <= cp <= 0xDFFF }

  /** `n` continuation bytes from `p` on. */
  predicate Tails(s: string, p: nat, n: nat) {
    p + n <= |s| && forall i :: p <= i < p + n ==> IsTail(s[i])
  }

  /** What section 4 of RFC 3629 asks of a second byte: no overlong form, no surrogate, nothing above 0x10FFFF. */
  predicate SecondOk(first: int, second: int) {
    && (first == 0xE0 ==> 0xA0 <= second) && (first == 0xED ==> second < 0xA0)
    && (first == 0xF0 ==> 0x90 <= second) && (first == 0xF4 ==> second < 0x90)
  }

  /** The length of the well-formed character at the beginning, by the grammar of section 4 of RFC 3629; 0 if there is none. */
  function FormedLen(s: string): (n: nat)
    requires s != ""
    ensures n <= |s|
    ensures forall i :: 1 <= i < n ==> IsTail(s[i])
  {
    var b := s[0] as int;
    if b < 0x80 then 1
    else if 0xC2 <= b < 0xE0 && Tails(s, 1, 1) then 2
    else if 0xE0 <= b < 0xF0 && Tails(s, 1, 2) && SecondOk(b, s[1] as int) then 3
    else if 0xF0 <= b < 0xF5 && Tails(s, 1, 3) && SecondOk(b, s[1] as int) then 4
    else 0
  }

  /** A sequence of well-formed characters. */
  predicate WellFormed(s: string) {
    s == "" || (FormedLen(s) > 0 && WellFormed(s[FormedLen(s)..]))
  }

  /**
    The numbers for which the decoder writes a well-formed character: no surrogates, and above
    16 bits those whose low 22 bits, which are all that is written, are neither small nor too large.
   */
  predicate Formed(cp: nat) {
    if cp < 0x1_0000 then !Surrogate(cp) else 0x1_0000 <= cp % 0x40_0000 <= MAX_CODE
  }

  /** The code points of Unicode among them, and no others up to the largest, are all but the surrogates. */
  lemma FormedCodes(cp: nat)
    requires cp <= MAX_CODE
    ensures Formed(cp) <==> !Surrogate(cp)
  {
  }

  /** The lead and second byte of a four-byte encoding depend on the low 22 bits. */
  lemma LowBits(cp: nat)
    ensures var v := cp % 0x40_0000;
            cp / 0x4_0000 % 16 == v / 0x4_0000 && cp / 4096 % 64 == v / 4096 % 64
  {
    var v, k := cp % 0x40_0000, cp / 0x40_0000;
    var a, b := v / 0x4_0000, v / 4096;
    Quotient18(cp, k * 16 + a, v % 0x4_0000);
    Quotient12(cp, k * 1024 + b, v % 4096);
    Below(k, a);
    Below64(k * 16, b);
  }

  lemma Quotient18(x: nat, q: nat, r: nat)
    requires x == q * 0x4_0000 + r && r < 0x4_0000
    ensures x / 0x4_0000 == q
  {
  }

  lemma Quotient12(x: nat, q: nat, r: nat)
    requires x == q * 4096 + r && r < 4096
    ensures x / 4096 == q
  {
  }

  lemma Below(k: nat, a: nat)
    requires a < 16
    ensures (k * 16 + a) % 16 == a
  {
  }

  lemma Below64(k: nat, b: nat)
    ensures (k * 64 + b) % 64 == b % 64
  {
    var c := b / 64;
    assert k * 64 + b == (k + c) * 64 + b % 64;
  }

  lemma FourthLead(v: nat)
    requires v < 0x40_0000
    ensures 0x1_0000 <= v <= MAX_CODE <==>
            v / 0x4_0000 < 5 && SecondOk(0xF0 + v / 0x4_0000, 0x80 + v / 4096 % 64)
  {
    var a, b := v / 0x4_0000, v / 4096;
    assert b / 64 == a && b == a * 64 + b % 64;
  }

  /** The second byte of a three-byte and of a four-byte encoding. */
  lemma SecondBytes(cp: nat)
    ensures 0x800 <= cp < 0x1_0000 ==>
              (SecondOk(0xE0 + cp / 4096, Tail(cp / 64) as int) <==> !Surrogate(cp))
    ensures 0x1_0000 <= cp ==>
              (cp / 0x4_0000 % 16 < 5 && SecondOk(0xF0 + cp / 0x4_0000 % 16, Tail(cp / 4096) as int) <==> Formed(cp))
  {
    LowBits(cp);
    FourthLead(cp % 0x40_0000);
  }

  /** What is written for a number of 32 bits is a well-formed character, exactly when the number is one of these. */
  lemma Utf8Formed(cp: nat, rest: string)
    requires 0 < cp < WORD
    ensures FormedLen(Utf8(cp) + rest) == if Formed(cp) then |Utf8(cp)| else 0
  {
    var r := Utf8(cp);
    var s := r + rest;
    assert s[..|r|] == r;
    Utf8Shape(cp);
    SecondBytes(cp);
    hide Tail;
    hide SecondOk;
    if cp >= 0x1_0000 {
      hide Formed;
    }
    if |r| > 1 {
      assert s[1] == r[1];
      assert forall i :: 1 <= i < |r| ==> IsTail(s[i]);
    }
  }

  /** Characters: every byte but the continuation bytes. */
  function CharCount(s: string, p: nat): nat
    decreases |s| - p
  {
    if AtEnd(s, p) then 0 else (if IsTail(s[p]) then 0 else 1) + CharCount(s, p + 1)
  }

  method Utf8CharCount(s: string) returns (count: nat)
    ensures count == CharCount(s, 0)
  {
    count := 0;
    var p := 0;
    while p < |s| && s[p] != '\0'
      invariant p <= |s| && count + CharCount(s, p) == CharCount(s, 0)
    {
      if !IsTail(s[p]) {
        count := count + 1;
      }
      p := p + 1;
    }
  }

  /** Counting stops at a NUL. */
  lemma {:induction false} CountStops(s: string, z: nat, p: nat)
    requires p <= z < |s| && s[z] == '\0'
    ensures CharCount(s, p) == CharCount(s[..z], p)
    decreases z - p
  {
    if p < z && s[p] != '\0' {
      CountStops(s, z, p + 1);
    }
  }

  // ----- numeric references -----

  /** The digits from `p` on, accumulated in a 32-bit word, and where they end. */
  function Number(s: string, p: nat, acc: nat): (r: (nat, nat))
    requires p <= |s| && acc < 0x1_0000_0000
    ensures r.0 < 0x1_0000_0000 && p <= r.1 <= |s|
    decreases |s| - p
  {
    if p < |s| && IsDigit(s[p])
    then Number(s, p + 1, (acc * 10 + DigitValue(s[p])) % 0x1_0000_0000)
    else (acc, p)
  }

  predicate IsReference(s: string, p: nat) {
    p + 1 < |s| && s[p] == '&' && s[p + 1] == '#'
  }

  /** The code point of a reference, and where it ends; the semicolon may be missing. */
  function Reference(s: string, p: nat): (r: (nat, nat))
    requires IsReference(s, p)
    ensures r.0 < 0x1_0000_0000 && p + 2 <= r.1 <= |s|
  {
    var (cp, q) := Number(s, p + 2, 0);
    (cp, if q < |s| && s[q] == ';' then q + 1 else q)
  }

  /** What the text from `p` on decodes to, with `room` bytes left in the buffer. */
  function Decoded(s: string, p: nat, room: int): string
    decreases |s| - p
  {
    if AtEnd(s, p) || room <= 6 then ""
    else if IsReference(s, p) then
      var (cp, q) := Reference(s, p);
      Utf8(cp) + Decoded(s, q, room - |Utf8(cp)|)
    else [s[p]] + Decoded(s, p + 1, room - 1)
  }

  method DecodeHtmlEntities(dst: array<char>, dstSize: nat, src: string)
    requires 0 < dstSize <= dst.Length
    modifies dst
    ensures var r := Decoded(src, 0, dstSize);
            |r| < dstSize && dst[..|r|] == r && dst[|r|] == '\0'
    ensures forall k :: dstSize <= k < dst.Length ==> dst[k] == old(dst[k])
  {
    hide Decoded;
    ghost var all := Decoded(src, 0, dstSize);
    var pos, p := 0, 0;
    while p < |src| && src[p] != '\0' && pos + 6 < dstSize
      invariant 0 <= p <= |src| && 0 <= pos < dstSize
      invariant all == dst[..pos] + Decoded(src, p, dstSize - pos)
      invariant forall k :: dstSize <= k < dst.Length ==> dst[k] == old(dst[k])
      decreases |src| - p
    {
      pos, p := DecodeNext(dst, dstSize, pos, src, p);
    }
    DecodedStep(src, p, dstSize - pos);
    dst[pos] := '\0';
  }

  /** The body of the loop: a reference or a character. */
  method DecodeNext(dst: array<char>, dstSize: nat, pos: nat, src: string, p: nat) returns (pos': nat, p': nat)
    requires p < |src| && src[p] != '\0' && pos + 6 < dstSize <= dst.Length
    modifies dst
    ensures p < p' <= |src| && pos < pos' < dstSize
    ensures dst[..pos'] + Decoded(src, p', dstSize - pos') == old(dst[..pos]) + Decoded(src, p, dstSize - pos)
    ensures forall k :: dstSize <= k < dst.Length ==> dst[k] == old(dst[k])
  {
    hide Utf8;
    hide Reference;
    hide Decoded;
    ghost var done := dst[..pos];
    DecodedStep(src, p, dstSize - pos);
    if src[p] == '&' && p + 1 < |src| && src[p + 1] == '#' {
      var codepoint;
      codepoint, p' := ReadReference(src, p);
      var bytes := Utf8(codepoint);
      Put(dst, pos, bytes);
      pos' := pos + |bytes|;
      PrependTo(done, bytes, Decoded(src, p', dstSize - pos'));
    } else {
      dst[pos] := src[p];
      pos', p' := pos + 1, p + 1;
      assert dst[..pos'] == done + [src[p]];
      PrependTo(done, [src[p]], Decoded(src, p', dstSize - pos'));
    }
  }

  /** One character or reference of the decoding. */
  lemma DecodedStep(s: string, p: nat, room: int)
    requires p <= |s|
    ensures AtEnd(s, p) || room <= 6 ==> Decoded(s, p, room) == ""
    ensures !(AtEnd(s, p) || room <= 6) && IsReference(s, p) ==>
              var (cp, q) := Reference(s, p);
              Decoded(s, p, room) == Utf8(cp) + Decoded(s, q, room - |Utf8(cp)|)
    ensures !(AtEnd(s, p) || room <= 6) && !IsReference(s, p) ==>
              Decoded(s, p, room) == [s[p]] + Decoded(s, p + 1, room - 1)
  {
    hide Utf8;
    hide Reference;
  }

  method ReadReference(src: string, p: nat) returns (codepoint: nat, q: nat)
    requires IsReference(src, p)
    ensures (codepoint, q) == Reference(src, p)
  {
    codepoint := 0;
    q := p + 2;
    while q < |src| && '0' <= src[q] <= '9'
      invariant p + 2 <= q <= |src| && codepoint < 0x1_0000_0000
      invariant Number(src, q, codepoint) == Number(src, p + 2, 0)
    {
      codepoint := (codepoint * 10 + DigitValue(src[q])) % 0x1_0000_0000;
      q := q + 1;
    }
    if q < |src| && src[q] == ';' {
      q := q + 1;
    }
  }

  method Put(dst: array<char>, pos: nat, bytes: string)
    requires pos + |bytes| <= dst.Length
    modifies dst
    ensures dst[..pos] == old(dst[..pos]) && dst[pos..pos + |bytes|] == bytes
    ensures dst[..pos + |bytes|] == old(dst[..pos]) + bytes
    ensures forall k :: pos + |bytes| <= k < dst.Length ==> dst[k] == old(dst[k])
  {
    forall k | 0 <= k < |bytes| {
      dst[pos + k] := bytes[k];
    }
    assert dst[..pos + |bytes|] == dst[..pos] + dst[pos..pos + |bytes|];
  }

  // ----- references come back as their code points -----

  /** Metadata as a renderer writes it: bytes as they are, and code points as decimal references. */
  datatype Piece = Plain(c: char) | Ref(cp: nat)

  function Render(p: Piece): string {
    match p
    case Plain(c) => [c]
    case Ref(cp) => "&#" + (Digits(cp) + ";")
  }

  function RenderAll(ps: seq<Piece>): string {
    if ps == [] then "" else Render(ps[0]) + RenderAll(ps[1..])
  }

  function Encode(p: Piece): (r: string)
    requires p.Ref? ==> p.cp < WORD
    ensures 1 <= |r| <= 4
  {
    if p.Plain? then [p.c] else Utf8(p.cp)
  }

  predicate PieceOk(p: Piece) {
    if p.Plain? then p.c != '\0' else 0 < p.cp < WORD
  }

  /** No plain ampersand and hash stand together, for they would read as a reference. */
  predicate Pieces(ps: seq<Piece>) {
    && (forall i :: 0 <= i < |ps| ==> PieceOk(ps[i]))
    && (forall i :: 0 <= i < |ps| - 1 ==> !(ps[i] == Plain('&') && ps[i + 1] == Plain('#')))
  }

  function EncodeAll(ps: seq<Piece>): string
    requires Pieces(ps)
  {
    if ps == [] then "" else Encode(ps[0]) + EncodeAll(ps[1..])
  }

  /** How many whole pieces are written before fewer than seven bytes are left. */
  function Fit(ps: seq<Piece>, room: int): (k: nat)
    requires Pieces(ps)
    ensures k <= |ps|
  {
    if ps == [] || room <= 6 then 0 else 1 + Fit(ps[1..], room - |Encode(ps[0])|)
  }

  lemma NumberStep(s: string, p: nat, acc: nat)
    requires p < |s| && IsDigit(s[p]) && 10 * acc + DigitValue(s[p]) < WORD
    ensures Number(s, p, acc) == Number(s, p + 1, 10 * acc + DigitValue(s[p]))
  {
  }

  lemma {:induction false} NumberOfDigits(s: string, p: nat, n: nat)
    requires At(s, p, Digits(n)) && n < WORD
    ensures Number(s, p, 0) == Number(s, p + |Digits(n)|, n)
    decreases n
  {
    var r := Digits(n);
    var k := |r| - 1;
    LastDigit(n);
    AtChar(s, p, r, k);
    hide Digits;
    hide Number;
    hide IsDigit;
    hide DigitValue;
    if n >= 10 {
      AtSplit(s, p, Digits(n / 10), [r[k]]);
      hide At;
      NumberOfDigits(s, p, n / 10);
    }
    NumberStep(s, p + k, n / 10);
  }

  lemma ReferenceOfRender(cp: nat, rest: string)
    requires cp < WORD
    ensures IsReference(Render(Ref(cp)) + rest, 0)
    ensures Reference(Render(Ref(cp)) + rest, 0) == (cp, |Render(Ref(cp))|)
  {
    var s := Render(Ref(cp)) + rest;
    var d := Digits(cp);
    assert s[2..2 + |d|] == d;
    assert s[2 + |d|] == ';';
    NumberOfDigits(s, 2, cp);
  }

  lemma {:induction false} NumberShift(pre: string, s: string, p: nat, acc: nat)
    requires p <= |s| && acc < 0x1_0000_0000
    ensures Number(pre + s, |pre| + p, acc) == (Number(s, p, acc).0, |pre| + Number(s, p, acc).1)
    decreases |s| - p
  {
    if p < |s| && IsDigit(s[p]) {
      NumberShift(pre, s, p + 1, (acc * 10 + DigitValue(s[p])) % 0x1_0000_0000);
    }
  }

  lemma ReferenceShift(pre: string, s: string, p: nat)
    ensures IsReference(pre + s, |pre| + p) <==> IsReference(s, p)
    ensures IsReference(s, p) ==>
              Reference(pre + s, |pre| + p) == (Reference(s, p).0, |pre| + Reference(s, p).1)
  {
    if IsReference(s, p) {
      NumberShift(pre, s, p + 2, 0);
    }
  }

  /** Decoding does not look back. */
  lemma {:induction false} DecodedShift(pre: string, s: string, p: nat, room: int)
    requires p <= |s|
    ensures Decoded(pre + s, |pre| + p, room) == Decoded(s, p, room)
    decreases |s| - p
  {
    hide Utf8;
    hide Reference;
    hide IsReference;
    ReferenceShift(pre, s, p);
    assert AtEnd(pre + s, |pre| + p) == AtEnd(s, p);
    if !AtEnd(s, p) && room > 6 {
      if IsReference(s, p) {
        DecodedShift(pre, s, Reference(s, p).1, room - |Utf8(Reference(s, p).0)|);
      } else {
        DecodedShift(pre, s, p + 1, room - 1);
      }
    }
  }

  lemma DecodePiece(ps: seq<Piece>, room: int)
    requires ps != [] && Pieces(ps) && room > 6
    ensures Decoded(RenderAll(ps), 0, room) ==
              Encode(ps[0]) + Decoded(RenderAll(ps), |Render(ps[0])|, room - |Encode(ps[0])|)
  {
    hide Utf8;
    hide Digits;
    var rest := RenderAll(ps[1..]);
    if ps[0].Ref? {
      ReferenceOfRender(ps[0].cp, rest);
    } else {
      assert !IsReference(RenderAll(ps), 0) by {
        if ps[0].c == '&' && |ps| > 1 {
          assert rest[0] == Render(ps[1])[0];
        }
      }
    }
  }

  /**
    Decoding the rendering of any pieces gives their encodings: all of them if there is
    room, and otherwise those of the pieces that fit, none of which is split.
   */
  lemma {:induction false} DecodeRendering(ps: seq<Piece>, room: int)
    requires Pieces(ps)
    ensures Decoded(RenderAll(ps), 0, room) == EncodeAll(ps[..Fit(ps, room)])
    decreases |ps|
  {
    hide Encode;
    hide Render;
    if ps != [] && room > 6 {
      var tail := ps[1..];
      var left := room - |Encode(ps[0])|;
      DecodePiece(ps, room);
      DecodedShift(Render(ps[0]), RenderAll(tail), 0, left);
      DecodeRendering(tail, left);
      assert ps[..Fit(ps, room)][1..] == tail[..Fit(tail, left)];
    }
  }

  lemma {:induction false} EnoughRoom(ps: seq<Piece>, room: int)
    requires Pieces(ps) && |EncodeAll(ps)| + 6 <= room
    ensures Fit(ps, room) == |ps|
    decreases |ps|
  {
    hide Encode;
    if ps != [] {
      EnoughRoom(ps[1..], room - |Encode(ps[0])|);
    }
  }

  // ----- what was decoded is UTF-8 -----

  /** Plain bytes that are characters of their own. */
  predicate Ascii(ps: seq<Piece>) {
    forall i :: 0 <= i < |ps| && ps[i].Plain? ==> ps[i].c as int < 0x80
  }

  function CodePoints(ps: seq<Piece>): seq<nat> {
    if ps == [] then []
    else [if ps[0].Plain? then ps[0].c as int else ps[0].cp] + CodePoints(ps[1..])
  }

  /** The encoding of the first piece stands after `pre`, and the others after that. */
  lemma FirstPiece(pre: string, ps: seq<Piece>)
    requires Pieces(ps) && ps != []
    ensures var s, e := pre + EncodeAll(ps), Encode(ps[0]);
            && Pieces(ps[1..]) && s == (pre + e) + EncodeAll(ps[1..])
            && At(s, |pre|, e) && |pre| < |s| && s[|pre|] == e[0]
  {
    hide Utf8;
    var e, rest := Encode(ps[0]), EncodeAll(ps[1..]);
    assert EncodeAll(ps) == e + rest;
    hide EncodeAll;
    hide Encode;
    PrependTo(pre, e, rest);
    assert (pre + e + rest)[|pre|..|pre| + |e|] == e;
  }

  /** One piece reads back as its code point. */
  lemma DecodePieceBack(s: string, p: nat, piece: Piece)
    requires PieceOk(piece) && At(s, p, Encode(piece)) && p < |s| && s[p] == Encode(piece)[0]
    requires if piece.Plain? then piece.c as int < 0x80 else piece.cp <= MAX_CODE
    ensures DecodeAt(s, p) == (if piece.Plain? then piece.c as int else piece.cp, p + |Encode(piece)|)
  {
    hide DecodeAt;
    hide Utf8;
    if piece.Ref? {
      DecodeUtf8(s, p, piece.cp);
    } else {
      DecodeOne(s, p);
    }
  }

  lemma {:induction false} DecodeAll(pre: string, ps: seq<Piece>)
    requires Pieces(ps) && Ascii(ps) && InUnicode(ps)
    ensures FromUtf8(pre + EncodeAll(ps), |pre|) == CodePoints(ps)
    decreases |ps|
  {
    hide FromUtf8;
    hide DecodeAt;
    hide Encode;
    hide At;
    if ps != [] {
      FirstPiece(pre, ps);
      hide EncodeAll;
      var s, e := pre + EncodeAll(ps), Encode(ps[0]);
      DecodeAll(pre + e, ps[1..]);
      DecodePieceBack(s, |pre|, ps[0]);
      FromStep(s, |pre|);
    } else {
      FromEnd(pre + EncodeAll(ps));
    }
  }

  predicate InUnicode(ps: seq<Piece>) {
    forall i :: 0 <= i < |ps| && ps[i].Ref? ==> ps[i].cp <= MAX_CODE
  }

  lemma FromStep(s: string, p: nat)
    requires p < |s|
    ensures FromUtf8(s, p) == [DecodeAt(s, p).0] + FromUtf8(s, DecodeAt(s, p).1)
  {
  }

  lemma FromEnd(s: string)
    ensures FromUtf8(s, |s|) == []
  {
  }

  /** The pieces that begin a character: all but the plain continuation bytes. */
  function Heads(ps: seq<Piece>): nat {
    if ps == [] then 0
    else (if ps[0].Plain? && 0x80 <= ps[0].c as int < 0xC0 then 0 else 1) + Heads(ps[1..])
  }

  lemma {:induction false} CountAll(pre: string, ps: seq<Piece>)
    requires Pieces(ps)
    ensures CharCount(pre + EncodeAll(ps), |pre|) == Heads(ps)
    decreases |ps|
  {
    hide Utf8;
    if ps != [] {
      var e, rest := Encode(ps[0]), EncodeAll(ps[1..]);
      var s := pre + EncodeAll(ps);
      assert s == pre + e + rest;
      CountAll(pre + e, ps[1..]);
      CountPiece(s, |pre|, ps[0]);
    }
  }

  lemma {:induction false} AsciiHeads(ps: seq<Piece>)
    requires Ascii(ps)
    ensures Heads(ps) == |ps|
  {
    if ps != [] {
      AsciiHeads(ps[1..]);
    }
  }

  /** Every encoding adds exactly one character, and so does a plain byte that is no continuation byte. */
  lemma CountPiece(s: string, p: nat, piece: Piece)
    requires PieceOk(piece) && At(s, p, Encode(piece))
    ensures CharCount(s, p) ==
              (if piece.Plain? && IsTail(piece.c) then 0 else 1) + CharCount(s, p + |Encode(piece)|)
  {
    var e := Encode(piece);
    if piece.Ref? {
      Utf8Shape(piece.cp);
    }
    assert forall i :: 0 <= i < |e| ==> s[p + i] == s[p..p + |e|][i] == e[i];
    assert s[p + 0] == e[0];
    hide Utf8;
    CountTails(s, p + 1, |e| - 1);
  }

  lemma {:induction false} CountTails(s: string, p: nat, n: nat)
    requires p + n <= |s| && forall i :: p <= i < p + n ==> IsTail(s[i])
    ensures CharCount(s, p) == CharCount(s, p + n)
    decreases n
  {
    if n > 0 {
      CountTails(s, p + 1, n - 1);
    }
  }

  // ----- when it is well-formed -----

  /** The plain bytes, with a question mark in the place of every reference. */
  function PlainBytes(ps: seq<Piece>): (r: string)
    ensures |r| == |ps|
  {
    seq(|ps|, i requires 0 <= i < |ps| => if ps[i].Plain? then ps[i].c else '?')
  }

  predicate AllFormed(ps: seq<Piece>) {
    forall i :: 0 <= i < |ps| && ps[i].Ref? ==> Formed(ps[i].cp)
  }

  /** How many plain bytes come before the first reference. */
  function Run(ps: seq<Piece>): (k: nat)
    ensures k <= |ps| && forall i :: 0 <= i < k ==> ps[i].Plain?
    ensures k < |ps| ==> ps[k].Ref?
  {
    if ps == [] || ps[0].Ref? then 0 else 1 + Run(ps[1..])
  }

  /** Plain bytes stand at the beginning as they are. */
  lemma {:induction false} EncodePlain(ps: seq<Piece>, n: nat)
    requires Pieces(ps) && n <= |ps| && forall i :: 0 <= i < n ==> ps[i].Plain?
    ensures EncodeAll(ps) == PlainBytes(ps)[..n] + EncodeAll(ps[n..])
    decreases n
  {
    if n == 0 {
      assert ps[n..] == ps;
    } else {
      EncodeFirst(ps);
      PlainBytesTail(ps, n);
      hide Pieces;
      hide EncodeAll;
      hide PlainBytes;
      var tail := ps[1..];
      EncodePlain(tail, n - 1);
      assert tail[n - 1..] == ps[n..];
      PrependTo([ps[0].c], PlainBytes(tail)[..n - 1], EncodeAll(ps[n..]));
    }
  }

  lemma PrependTo(a: string, b: string, c: string)
    ensures a + (b + c) == a + b + c
  {
  }

  lemma EncodeFirst(ps: seq<Piece>)
    requires Pieces(ps) && ps != [] && ps[0].Plain?
    ensures Pieces(ps[1..]) && EncodeAll(ps) == [ps[0].c] + EncodeAll(ps[1..])
  {
    hide Utf8;
  }

  lemma PlainBytesTail(ps: seq<Piece>, n: nat)
    requires 0 < n <= |ps| && ps[0].Plain?
    ensures PlainBytes(ps)[..n] == [ps[0].c] + PlainBytes(ps[1..])[..n - 1]
  {
  }

  /** No character reaches past the plain bytes, for neither a reference nor a question mark continues one. */
  lemma SameLen(a: string, b: string, k: nat)
    requires 1 <= k <= |a| && k <= |b| && a[..k] == b[..k]
    requires (|a| == k <==> |b| == k) && (|a| > k ==> !IsTail(a[k]) && !IsTail(b[k]))
    ensures FormedLen(a) == FormedLen(b) <= k
  {
    assert forall i :: 0 <= i < k ==> a[i] == a[..k][i] == b[i];
  }

  lemma PlainRun(ps: seq<Piece>)
    requires Pieces(ps) && ps != [] && ps[0].Plain?
    ensures EncodeAll(ps) != "" && FormedLen(EncodeAll(ps)) == FormedLen(PlainBytes(ps)) <= Run(ps)
  {
    hide Utf8;
    var k := Run(ps);
    var a, b := EncodeAll(ps), PlainBytes(ps);
    EncodePlain(ps, k);
    assert a[..k] == b[..k];
    if k < |ps| {
      var e := Encode(ps[k]);
      assert EncodeAll(ps[k..]) == e + EncodeAll(ps[k..][1..]);
      Utf8Shape(ps[k].cp);
      assert a[k] == e[0];
    } else {
      assert ps[k..] == [];
    }
    hide FormedLen;
    SameLen(a, b, k);
  }

  lemma FormedStep(s: string)
    requires s != ""
    ensures WellFormed(s) <==> FormedLen(s) > 0 && WellFormed(s[FormedLen(s)..])
  {
    hide FormedLen;
  }

  /** A reference and what follows it. */
  lemma FormedRef(cp: nat, rest: string)
    requires 0 < cp < WORD
    ensures WellFormed(Utf8(cp) + rest) <==> Formed(cp) && WellFormed(rest)
  {
    hide Utf8;
    hide FormedLen;
    hide WellFormed;
    Utf8Formed(cp, rest);
    FormedStep(Utf8(cp) + rest);
    assert (Utf8(cp) + rest)[|Utf8(cp)|..] == rest;
  }

  lemma FormedQuestionMark(rest: string)
    ensures WellFormed("?" + rest) <==> WellFormed(rest)
  {
    hide WellFormed;
    FormedStep("?" + rest);
    assert FormedLen("?" + rest) == 1 && ("?" + rest)[1..] == rest;
  }

  lemma PlainBytesFirst(ps: seq<Piece>)
    requires ps != [] && ps[0].Ref?
    ensures PlainBytes(ps) == "?" + PlainBytes(ps[1..])
    ensures AllFormed(ps) <==> Formed(ps[0].cp) && AllFormed(ps[1..])
  {
    assert forall i :: 1 <= i < |ps| ==> ps[i] == ps[1..][i - 1];
  }

  /** A run of plain bytes up to the end of its first character, if it has one. */
  lemma FormedPlain(ps: seq<Piece>) returns (n: nat)
    requires Pieces(ps) && ps != [] && ps[0].Plain?
    ensures n <= |ps| && (AllFormed(ps) <==> AllFormed(ps[n..]))
    ensures WellFormed(EncodeAll(ps)) <==> n > 0 && WellFormed(EncodeAll(ps[n..]))
    ensures WellFormed(PlainBytes(ps)) <==> n > 0 && WellFormed(PlainBytes(ps[n..]))
  {
    hide FormedLen;
    hide WellFormed;
    hide AllFormed;
    hide EncodeAll;
    hide PlainBytes;
    n := FormedLen(PlainBytes(ps));
    PlainRun(ps);
    EncodePlain(ps, n);
    FormedAfter(ps, n);
    PlainBytesDrop(ps, n);
    FormedStep(EncodeAll(ps));
    FormedStep(PlainBytes(ps));
    DropPrefix(EncodeAll(ps), PlainBytes(ps)[..n], EncodeAll(ps[n..]));
  }

  lemma DropPrefix(s: string, a: string, b: string)
    requires s == a + b
    ensures s[|a|..] == b
  {
  }

  lemma PlainBytesDrop(ps: seq<Piece>, n: nat)
    requires n <= |ps|
    ensures PlainBytes(ps)[n..] == PlainBytes(ps[n..])
  {
  }

  /** Encodings are well-formed exactly when the plain bytes are, apart from the references, and every reference writes a well-formed character. */
  lemma {:induction false} FormedPieces(ps: seq<Piece>)
    requires Pieces(ps)
    ensures WellFormed(EncodeAll(ps)) <==> WellFormed(PlainBytes(ps)) && AllFormed(ps)
    decreases |ps|
  {
    hide Utf8;
    hide FormedLen;
    if ps == [] {
    } else if ps[0].Ref? {
      hide WellFormed;
      hide AllFormed;
      hide Formed;
      FormedPieces(ps[1..]);
      FormedRef(ps[0].cp, EncodeAll(ps[1..]));
      FormedQuestionMark(PlainBytes(ps[1..]));
      PlainBytesFirst(ps);
    } else {
      hide WellFormed;
      hide AllFormed;
      hide EncodeAll;
      hide PlainBytes;
      var n := FormedPlain(ps);
      if n > 0 {
        FormedPieces(ps[n..]);
      }
    }
  }

  lemma FormedAfter(ps: seq<Piece>, n: nat)
    requires n <= |ps| && forall i :: 0 <= i < n ==> ps[i].Plain?
    ensures AllFormed(ps) <==> AllFormed(ps[n..])
  {
    assert forall i :: n <= i < |ps| ==> ps[i] == ps[n..][i - n];
  }

  /** What the decoder gives is well-formed UTF-8 exactly when the bytes around the references that fit are, and each of these writes a well-formed character. */
  lemma DecodedIsWellFormed(ps: seq<Piece>, room: int)
    requires Pieces(ps)
    ensures var fit := ps[..Fit(ps, room)];
            WellFormed(Decoded(RenderAll(ps), 0, room)) <==> WellFormed(PlainBytes(fit)) && AllFormed(fit)
  {
    DecodeRendering(ps, room);
    FormedPieces(ps[..Fit(ps, room)]);
  }

  lemma {:induction false} AsciiFormed(s: string)
    requires forall i :: 0 <= i < |s| ==> s[i] as int < 0x80
    ensures WellFormed(s)
  {
    if s != "" {
      AsciiFormed(s[1..]);
    }
  }

  /** A surrogate reference, and what is written for it: three bytes that are no character. */
  lemma SurrogateReference()
    ensures var bytes := Decoded("&#55296;", 0, 32);
            bytes == [0xED as char, 0xA0 as char, 0x80 as char] && !WellFormed(bytes)
  {
    var ps := [Ref(0xD800)];
    SurrogateText();
    SurrogateBytes();
    hide *;
    assert Pieces(ps) && Fit(ps, 32) == 1 by {
      OnePiece(0xD800);
    }
    assert ps[..1] == ps;
    DecodeRendering(ps, 32);
    DecodedIsWellFormed(ps, 32);
    assert !AllFormed(ps) by {
      OnePiece(0xD800);
    }
  }

  lemma OnePiece(cp: nat)
    requires 0 < cp < WORD
    ensures Pieces([Ref(cp)]) && Fit([Ref(cp)], 32) == 1
    ensures AllFormed([Ref(cp)]) <==> Formed(cp)
    ensures EncodeAll([Ref(cp)]) == Utf8(cp)
  {
    hide Utf8;
    var ps := [Ref(cp)];
    assert ps[0] == Ref(cp) && ps[1..] == [];
    assert EncodeAll(ps) == Utf8(cp) + EncodeAll(ps[1..]);
  }

  lemma SurrogateBytes()
    ensures EncodeAll([Ref(0xD800)]) == [0xED as char, 0xA0 as char, 0x80 as char] && !Formed(0xD800)
  {
    OnePiece(0xD800);
    hide EncodeAll;
  }

  lemma SurrogateText()
    ensures RenderAll([Ref(0xD800)]) == "&#55296;"
  {
    assert Digits(5) == "5" && Digits(55) == Digits(5) + "5" && Digits(552) == Digits(55) + "2";
    assert Digits(5529) == Digits(552) + "9" && Digits(55296) == Digits(5529) + "6";
    hide Digits;
    var ps := [Ref(0xD800)];
    assert RenderAll(ps) == Render(ps[0]) + RenderAll(ps[1..]);
  }

  /** Numbers above Unicode: one that writes no character, and one that writes a character of another number. */
  lemma LargeReferences()
    ensures !Formed(0x11_0000) && Formed(0x41_0000) && Utf8(0x41_0000) == Utf8(0x1_0000)
  {
  }

  /** Bytes of a character that is not written as a reference are cut at the end of a small buffer. */
  lemma CutCharacter()
    ensures var text := [0xE4 as char, 0xB8 as char, 0xAD as char];
            WellFormed(text) && Decoded(text, 0, 7) == [0xE4 as char] && !WellFormed(Decoded(text, 0, 7))
  {
    var text := [0xE4 as char, 0xB8 as char, 0xAD as char];
    assert FormedLen(text) == 3 && text[3..] == "";
    assert Decoded(text, 1, 6) == "";
  }

  /**
    Text and references together: what is decoded counts one character for each, is well-formed
    exactly when every reference is, and reads back as the code points if none is too large.
   */
  lemma DecodedIsUtf8(ps: seq<Piece>, room: int)
    requires Pieces(ps) && Ascii(ps)
    ensures var bytes := Decoded(RenderAll(ps), 0, room);
            var fit := ps[..Fit(ps, room)];
            && CharCount(bytes, 0) == |fit| && (InUnicode(fit) ==> FromUtf8(bytes, 0) == CodePoints(fit))
            && (WellFormed(bytes) <==> AllFormed(fit))
  {
    var fit := ps[..Fit(ps, room)];
    DecodeRendering(ps, room);
    if InUnicode(fit) {
      DecodeAll("", fit);
    }
    CountAll("", fit);
    AsciiHeads(fit);
    assert "" + EncodeAll(fit) == EncodeAll(fit);
    AsciiFormed(PlainBytes(fit));
    DecodedIsWellFormed(ps, room);
  }

  // ----- what a reference may look like -----

  /** The number that the digits from `p` on stand for, without a limit. */
  function DigitsValue(s: string, p: nat, acc: nat): nat
    requires p <= |s|
    decreases |s| - p
  {
    if p < |s| && '0' <= s[p] <= '9' then DigitsValue(s, p + 1, 10 * acc + (s[p] as int - 48)) else acc
  }

  lemma ModStep(acc: nat, d: nat)
    ensures (acc % 4_294_967_296 * 10 + d) % 4_294_967_296 == (10 * acc + d) % 4_294_967_296
  {
    var q := acc / 4_294_967_296;
    assert 10 * acc + d == (acc % 4_294_967_296 * 10 + d) + 10 * q * 4_294_967_296;
    ModAdd(acc % 4_294_967_296 * 10 + d, 10 * q);
  }

  lemma ModAdd(x: nat, k: nat)
    ensures (x + k * 4_294_967_296) % 4_294_967_296 == x % 4_294_967_296
  {
    assert x + k * 4_294_967_296 == (x / 4_294_967_296 + k) * 4_294_967_296 + x % 4_294_967_296;
  }

  /** A reference of any length is read modulo 2^32. */
  lemma {:induction false} NumberModulo(s: string, p: nat, acc: nat)
    requires p <= |s|
    ensures Number(s, p, acc % 4_294_967_296).0 == DigitsValue(s, p, acc) % 4_294_967_296
    decreases |s| - p
  {
    if p < |s| && IsDigit(s[p]) {
      ModStep(acc, DigitValue(s[p]));
      NumberModulo(s, p + 1, 10 * acc + DigitValue(s[p]));
    }
  }

  /** The semicolon may be missing. */
  lemma WithoutSemicolon(cp: nat, rest: string)
    requires cp < WORD && (rest == "" || (rest[0] != ';' && !('0' <= rest[0] <= '9')))
    ensures IsReference("&#" + Digits(cp) + rest, 0)
    ensures Reference("&#" + Digits(cp) + rest, 0) == (cp, 2 + |Digits(cp)|)
  {
    var d := Digits(cp);
    var s := "&#" + d + rest;
    assert s[2..2 + |d|] == d;
    assert rest != "" ==> s[2 + |d|] == rest[0];
    NumberOfDigits(s, 2, cp);
  }

  /** Without digits a reference writes a NUL, which ends the text for its readers. */
  lemma EmptyReference()
    ensures Decoded("&#;x", 0, 32) == "\0x"
  {
    var s := "&#;x";
    assert Number(s, 2, 0) == (0, 2);
    assert IsReference(s, 0) && Reference(s, 0) == (0, 3);
    assert Decoded(s, 4, 30) == "";
    assert Decoded(s, 3, 31) == "x";
    assert Utf8(0) == "\0";
  }

  // ----- both functions, one after the other -----

  /** A title as a document holds it: the five characters by their names, other code points by their numbers. */
  function RenderTitle(ps: seq<Piece>): string {
    if ps == [] then ""
    else (if ps[0].Plain? then EscapeChar(ps[0].c) else Render(ps[0])) + RenderTitle(ps[1..])
  }

  lemma {:induction false} DigitsOnly(n: nat)
    ensures forall i :: 0 <= i < |Digits(n)| ==> '0' <= Digits(n)[i] <= '9'
    decreases n
  {
    if n >= 10 {
      DigitsOnly(n / 10);
    }
  }

  /** A numeric reference comes through the first function as it is, whatever follows. */
  lemma {:induction false} NumbersStay(r: string, rest: string)
    requires forall i :: 0 <= i < |r| && r[i] == '&' ==> i + 1 < |r| && r[i + 1] == '#'
    ensures Unescape(r + rest, 0, |r + rest|) == r + Unescape(rest, 0, |rest|)
    decreases |r|
  {
    if r == "" {
      assert r + rest == rest;
    } else {
      hide Unescape;
      hide Entity;
      hide NameFirst;
      var tail := r[1..];
      assert forall i :: 0 <= i < |tail| ==> tail[i] == r[i + 1];
      NumbersStay(tail, rest);
      assert r == [r[0]] + tail;
      PrependTo([r[0]], tail, rest);
      if r[0] == '&' {
        assert ([r[0]] + (tail + rest))[1] == tail[0] == '#';
        NumberIsNoName([r[0]] + (tail + rest));
      }
      EntityOfRaw(r[0], tail + rest);
      UnescapeStep([r[0]], tail + rest, r[0]);
      PrependTo([r[0]], tail, Unescape(rest, 0, |rest|));
    }
  }

  lemma NumberIsNoName(s: string)
    requires |s| > 1 && s[1] == '#'
    ensures !NameFirst(s)
  {
  }

  lemma RenderStays(cp: nat, rest: string)
    ensures Unescape(Render(Ref(cp)) + rest, 0, |Render(Ref(cp)) + rest|) == Render(Ref(cp)) + Unescape(rest, 0, |rest|)
  {
    var r := Render(Ref(cp));
    DigitsOnly(cp);
    assert r == "&#" + Digits(cp) + ";";
    hide Digits;
    NumbersStay(r, rest);
  }

  lemma {:induction false} UnescapeTitle(ps: seq<Piece>)
    ensures Unescape(RenderTitle(ps), 0, |RenderTitle(ps)|) == RenderAll(ps)
    decreases |ps|
  {
    if ps != [] {
      var rest := RenderTitle(ps[1..]);
      UnescapeTitle(ps[1..]);
      if ps[0].Plain? {
        EntityOfEscape(ps[0].c, rest);
        hide EscapeChar;
        UnescapeStep(EscapeChar(ps[0].c), rest, ps[0].c);
      } else {
        RenderStays(ps[0].cp, rest);
        hide Render;
      }
      hide Unescape;
    }
  }

  /** Unescaped and decoded, a title is its bytes and the UTF-8 of its references: all of it, or the pieces that fit. */
  lemma TitleComesThrough(ps: seq<Piece>, room: int)
    requires Pieces(ps)
    ensures Decoded(Unescape(RenderTitle(ps), 0, |RenderTitle(ps)|), 0, room) == EncodeAll(ps[..Fit(ps, room)])
  {
    UnescapeTitle(ps);
    DecodeRendering(ps, room);
  }

  /** Through the two buffers as the program has them, the first one large enough. */
  method ShowTitle(title: array<char>, titleSize: nat, shown: array<char>, shownSize: nat, ghost ps: seq<Piece>, src: string)
    requires title != shown && 0 < titleSize <= title.Length && 0 < shownSize <= shown.Length
    requires Pieces(ps) && src == RenderTitle(ps) && |RenderAll(ps)| < titleSize
    modifies title, shown
    ensures var r := EncodeAll(ps[..Fit(ps, shownSize)]);
            |r| < shownSize && shown[..|r|] == r && shown[|r|] == '\0'
  {
    HtmlUnescape(title, titleSize, src, |src|);
    UnescapeTitle(ps);
    ghost var len := |RenderAll(ps)|;
    assert title[..][..len] == RenderAll(ps) && title[..][len] == '\0';
    DecodedStops(title[..], len, 0, shownSize);
    DecodeHtmlEntities(shown, shownSize, title[..]);
    DecodeRendering(ps, shownSize);
  }

  lemma {:induction false} NumberStops(s: string, z: nat, p: nat, acc: nat)
    requires p <= z < |s| && s[z] == '\0' && acc < WORD
    ensures Number(s, p, acc) == Number(s[..z], p, acc)
    decreases z - p
  {
    if p < z && IsDigit(s[p]) {
      NumberStops(s, z, p + 1, (acc * 10 + DigitValue(s[p])) % WORD);
    }
  }

  lemma EndStops(s: string, z: nat, p: nat)
    requires p <= z < |s| && s[z] == '\0'
    ensures AtEnd(s, p) <==> AtEnd(s[..z], p)
    ensures !AtEnd(s, p) ==> p < z && s[p] == s[..z][p]
  {
  }

  lemma ReferenceStops(s: string, z: nat, p: nat)
    requires p <= z < |s| && s[z] == '\0'
    ensures IsReference(s, p) <==> IsReference(s[..z], p)
    ensures IsReference(s, p) ==> Reference(s, p) == Reference(s[..z], p) && Reference(s, p).1 <= z
  {
    if IsReference(s, p) {
      NumberStops(s, z, p + 2, 0);
    }
  }

  /** Decoding stops at a NUL. */
  lemma {:induction false} DecodedStops(s: string, z: nat, p: nat, room: int)
    requires p <= z < |s| && s[z] == '\0'
    ensures Decoded(s, p, room) == Decoded(s[..z], p, room)
    decreases z - p
  {
    var a := s[..z];
    DecodedStep(s, p, room);
    DecodedStep(a, p, room);
    ReferenceStops(s, z, p);
    EndStops(s, z, p);
    hide *;
    if !AtEnd(a, p) && room > 6 {
      if IsReference(s, p) {
        DecodedStops(s, z, Reference(s, p).1, room - |Utf8(Reference(s, p).0)|);
      } else {
        DecodedStops(s, z, p + 1, room - 1);
      }
    }
  }
}
