/**
  What the lexemes are, in the words of the grammar of RFC 8259 and with character
  classes of its own. The scans of the tokenizer are shown to find exactly these.
 */
module JsmnGrammar {
  import opened JsmnSpec
  import opened Text

  // ----- the character classes -----

  /** White space, section 2 of RFC 8259. */
  predicate White(c: char) { c == ' ' || c == '\n' || c == '\r' || c == '\t' }

  /** What ends a text without quotes: white space and the four separators that can follow a value or a key. */
  predicate Separator(c: char) { White(c) || c == ',' || c == ':' || c == '}' || c == ']' }

  predicate Visible(c: char) { ' ' <= c <= '~' }

  predicate HexDigit(c: char) { '0' <= c <= '9' || 'a' <= c <= 'f' || 'A' <= c <= 'F' }

  /** The letters of two-character escapes, section 7 of RFC 8259. */
  predicate EscapeLetter(c: char) {
    c == 'b' || c == 'f' || c == 'n' || c == 'r' || c == 't' || c == '\\' || c == '/' || c == '\"'
  }

  /** The tokenizer's classes are these. */
  lemma Classes(c: char)
    ensures IsSpace(c) == White(c) && IsDelimiter(c) == Separator(c) && IsPrintable(c) == Visible(c)
    ensures IsHex(c) == HexDigit(c) && IsSimpleEscape(c) == EscapeLetter(c)
  {
  }

  // ----- texts without quotes -----

  /** A scan without quotes goes up to the first separator or the end, over visible characters only. */
  lemma {:induction false} PrimitiveExact(js: string, p: nat, q: nat)
    requires p <= q <= |js|
    ensures ScanPrimitive(js, p) == Found(q) <==>
            && (forall k :: p <= k < q ==> Visible(js[k]) && !Separator(js[k]))
            && (q == |js| || js[q] == '\0' || Separator(js[q]))
    decreases |js| - p
  {
    if p < |js| {
      Classes(js[p]);
      if p < q {
        PrimitiveExact(js, p + 1, q);
      }
    }
  }

  /** And fails exactly at a character that is neither visible nor NUL. */
  lemma {:induction false} PrimitiveBad(js: string, p: nat)
    requires p <= |js|
    ensures ScanPrimitive(js, p).Bad? <==>
            exists q :: p <= q < |js| && (forall k :: p <= k < q ==> Visible(js[k]) && !Separator(js[k]))
                        && !Visible(js[q]) && !Separator(js[q]) && js[q] != '\0'
    decreases |js| - p
  {
    if p < |js| {
      Classes(js[p]);
      if Visible(js[p]) && !Separator(js[p]) {
        PrimitiveBad(js, p + 1);
        if ScanPrimitive(js, p + 1).Bad? {
          var q :| p + 1 <= q < |js| && (forall k :: p + 1 <= k < q ==> Visible(js[k]) && !Separator(js[k]))
                   && !Visible(js[q]) && !Separator(js[q]) && js[q] != '\0';
          assert forall k :: p <= k < q ==> Visible(js[k]) && !Separator(js[k]);
        }
      }
    }
  }

  // ----- strings -----

  /** Plain characters and complete escapes. */
  predicate StringBody(body: string) {
    if body == "" then true
    else if body[0] == '\\' then
      if |body| < 2 then false
      else if EscapeLetter(body[1]) then StringBody(body[2..])
      else body[1] == 'u' && |body| >= 6 && HexDigit(body[2]) && HexDigit(body[3]) && HexDigit(body[4])
           && HexDigit(body[5]) && StringBody(body[6..])
    else body[0] != '\"' && body[0] != '\0' && StringBody(body[1..])
  }

  /** A backslash that begins no escape, complete or cut short by the end of the text. */
  predicate BadEscape(js: string, q: nat) {
    && q + 1 < |js| && js[q] == '\\'
    && if js[q + 1] == 'u' then BadHex(js, q + 2, 4) else !EscapeLetter(js[q + 1])
  }

  /** Among the next `n` characters one is no hexadecimal digit, before the end of the text. */
  predicate BadHex(js: string, p: nat, n: nat)
    decreases n
  {
    n > 0 && !AtEnd(js, p) && (!HexDigit(js[p]) || BadHex(js, p + 1, n - 1))
  }

  lemma {:induction false} HexExact(js: string, p: nat, n: nat)
    requires p <= |js|
    ensures ScanHex(js, p, n).Bad? <==> BadHex(js, p, n)
    ensures ScanHex(js, p, n).Found? ==> HexRead(js, p, n, ScanHex(js, p, n).end)
    decreases n
  {
    HexStep(js, p, n);
    hide ScanHex;
    hide BadHex;
    hide HexDigit;
    hide AtEnd;
    if n > 0 && !AtEnd(js, p) && HexDigit(js[p]) {
      HexExact(js, p + 1, n - 1);
    }
  }

  /** Digits from `p` up to `q`: `n` of them, or up to the end of the text. */
  predicate HexRead(js: string, p: nat, n: nat, q: nat) {
    p <= q <= p + n && q <= |js| && (q < p + n ==> AtEnd(js, q)) && forall k :: p <= k < q ==> HexDigit(js[k])
  }

  lemma HexStep(js: string, p: nat, n: nat)
    requires p <= |js|
    ensures n == 0 || AtEnd(js, p) ==> ScanHex(js, p, n) == Found(p) && !BadHex(js, p, n)
    ensures n > 0 && !AtEnd(js, p) && !HexDigit(js[p]) ==> ScanHex(js, p, n) == Bad && BadHex(js, p, n)
    ensures n > 0 && !AtEnd(js, p) && HexDigit(js[p]) ==>
              ScanHex(js, p, n) == ScanHex(js, p + 1, n - 1) && BadHex(js, p, n) == BadHex(js, p + 1, n - 1)
  {
    if n > 0 && !AtEnd(js, p) {
      Classes(js[p]);
    }
    hide IsHex;
    hide HexDigit;
  }

  /** One unit of a string: how long the next plain character or complete escape is; 0 if there is none. */
  function Unit(js: string, p: nat): (n: nat)
    requires p <= |js|
    ensures p + n <= |js|
  {
    if AtEnd(js, p) || js[p] == '\"' then 0
    else if js[p] != '\\' then 1
    else if p + 1 >= |js| then 0
    else if EscapeLetter(js[p + 1]) then 2
    else if js[p + 1] == 'u' && p + 6 <= |js| && HexDigit(js[p + 2]) && HexDigit(js[p + 3])
            && HexDigit(js[p + 4]) && HexDigit(js[p + 5]) then 6
    else 0
  }

  /** The scan of a string goes on after a unit; without one it has found the quote, is bad or is unfinished. */
  lemma ScanUnit(js: string, p: nat)
    requires p <= |js|
    ensures Unit(js, p) > 0 ==> ScanString(js, p) == ScanString(js, p + Unit(js, p))
    ensures Unit(js, p) == 0 ==>
              && (ScanString(js, p).Found? <==> p < |js| && js[p] == '\"')
              && (ScanString(js, p).Found? ==> ScanString(js, p).end == p)
              && (ScanString(js, p).Bad? <==> BadEscape(js, p))
    ensures BadEscape(js, p) ==> p + 1 < |js|
  {
    if p + 1 < |js| && js[p] == '\\' {
      Classes(js[p + 1]);
      if js[p + 1] == 'u' {
        FourHex(js, p + 2);
        hide HexDigit;
        hide ScanHex;
        hide BadHex;
        hide IsSimpleEscape;
      }
    }
  }

  /** The digits of a `\u` escape: all four, or a bad one, or the end of the text before. */
  lemma FourHex(js: string, p: nat)
    requires p <= |js|
    ensures var h := ScanHex(js, p, 4);
            if p + 4 <= |js| && HexDigit(js[p]) && HexDigit(js[p + 1]) && HexDigit(js[p + 2]) && HexDigit(js[p + 3])
            then h == Found(p + 4) && !BadHex(js, p, 4)
            else (h.Bad? <==> BadHex(js, p, 4)) && (h.Found? ==> ScanString(js, h.end).Unfinished?)
  {
    HexExact(js, p, 4);
    hide HexDigit;
    var h := ScanHex(js, p, 4);
    if h.Found? {
      hide ScanHex;
      hide BadHex;
      if h.end == p + 4 {
        assert HexDigit(js[p]) && HexDigit(js[p + 1]) && HexDigit(js[p + 2]) && HexDigit(js[p + 3]);
      } else {
        assert AtEnd(js, h.end) ==> ScanString(js, h.end).Unfinished?;
        if p + 4 <= |js| {
          NulIsNoHex(js, p, h.end);
        }
      }
    } else if p + 4 <= |js| {
      NotFourHex(js, p);
    }
  }

  lemma NulIsNoHex(js: string, p: nat, z: nat)
    requires p <= z < p + 4 <= |js| && AtEnd(js, z)
    ensures !(HexDigit(js[p]) && HexDigit(js[p + 1]) && HexDigit(js[p + 2]) && HexDigit(js[p + 3]))
  {
    assert !HexDigit('\0');
  }

  lemma NotFourHex(js: string, p: nat)
    requires BadHex(js, p, 4) && p + 4 <= |js|
    ensures !(HexDigit(js[p]) && HexDigit(js[p + 1]) && HexDigit(js[p + 2]) && HexDigit(js[p + 3]))
  {
    hide HexDigit;
    assert BadHex(js, p, 4) ==> !HexDigit(js[p]) || BadHex(js, p + 1, 3);
    assert BadHex(js, p + 1, 3) ==> !HexDigit(js[p + 1]) || BadHex(js, p + 2, 2);
    assert BadHex(js, p + 2, 2) ==> !HexDigit(js[p + 2]) || BadHex(js, p + 3, 1);
    assert BadHex(js, p + 3, 1) ==> !HexDigit(js[p + 3]);
  }

  /** A body is a sequence of units. */
  lemma BodyUnit(js: string, p: nat, q: nat)
    requires p <= q <= |js|
    ensures StringBody(js[p..q]) <==>
            p == q || (Unit(js, p) > 0 && p + Unit(js, p) <= q && StringBody(js[p + Unit(js, p)..q]))
  {
    hide HexDigit;
    hide EscapeLetter;
    var b := js[p..q];
    if p < q {
      assert b[0] == js[p];
      assert b[1..] == js[p + 1..q];
      if p + 1 < q {
        assert b[1] == js[p + 1];
        assert b[2..] == js[p + 2..q];
      }
      if p + 6 <= q {
        assert b[2] == js[p + 2] && b[3] == js[p + 3] && b[4] == js[p + 4] && b[5] == js[p + 5];
        assert b[6..] == js[p + 6..q];
      }
    }
  }

  /** A string ends at its first quote outside an escape, with nothing but plain characters and complete escapes before. */
  lemma {:induction false} StringExact(js: string, p: nat, q: nat)
    requires p <= q < |js|
    ensures ScanString(js, p) == Found(q) <==> StringBody(js[p..q]) && js[q] == '\"'
    decreases |js| - p
  {
    ScanUnit(js, p);
    BodyUnit(js, p, q);
    hide ScanString;
    hide StringBody;
    var n := Unit(js, p);
    if n > 0 && p + n <= q {
      StringExact(js, p + n, q);
    } else if n > 0 {
      ScanBeyond(js, p + n, q);
      if p == q {
        assert js[q] != '\"';
      }
    }
  }

  lemma {:induction false} ScanBeyond(js: string, p: nat, q: nat)
    requires q < p <= |js|
    ensures ScanString(js, p) != Found(q)
  {
  }

  /** And it is bad exactly where plain characters and complete escapes are followed by a bad one. */
  lemma {:induction false} StringBad(js: string, p: nat)
    requires p <= |js|
    ensures ScanString(js, p).Bad? <==> exists q :: p <= q < |js| && StringBody(js[p..q]) && BadEscape(js, q)
    decreases |js| - p
  {
    hide ScanString;
    hide StringBody;
    hide BadEscape;
    ScanUnit(js, p);
    var n := Unit(js, p);
    if n > 0 {
      StringBad(js, p + n);
      if ScanString(js, p).Bad? {
        var q :| p + n <= q < |js| && StringBody(js[p + n..q]) && BadEscape(js, q);
        BodyUnit(js, p, q);
        assert StringBody(js[p..q]) && BadEscape(js, q);
      }
      forall q | p <= q < |js| && StringBody(js[p..q]) && BadEscape(js, q)
        ensures ScanString(js, p).Bad?
      {
        BodyUnit(js, p, q);
        UnitIsNotBad(js, p);
      }
    } else {
      if BadEscape(js, p) {
        BodyUnit(js, p, p);
        assert StringBody(js[p..p]) && BadEscape(js, p);
      }
      forall q | p <= q < |js| && StringBody(js[p..q]) && BadEscape(js, q)
        ensures BadEscape(js, p)
      {
        BodyUnit(js, p, q);
      }
    }
  }

  lemma UnitIsNotBad(js: string, p: nat)
    requires p <= |js| && Unit(js, p) > 0
    ensures !BadEscape(js, p)
  {
    hide HexDigit;
    if p + 6 <= |js| && BadHex(js, p + 2, 4) {
      NotFourHex(js, p + 2);
    }
  }

  // ----- writing texts as strings -----

  function HexLetter(d: nat): char
    requires d < 16
  {
    "0123456789abcdef"[d]
  }

  /** A character of a string, written as section 7 of RFC 8259 asks. */
  function EscapedChar(c: char): string {
    if c == '\"' then "\\\""
    else if c == '\\' then "\\\\"
    else if c == '/' then "\\/"
    else if c == 8 as char then "\\b"
    else if c == 12 as char then "\\f"
    else if c == '\n' then "\\n"
    else if c == '\r' then "\\r"
    else if c == '\t' then "\\t"
    else if c < ' ' then "\\u00" + [HexLetter(c as int / 16), HexLetter(c as int % 16)]
    else [c]
  }

  function Escaped(text: string): string {
    if text == "" then "" else EscapedChar(text[0]) + Escaped(text[1..])
  }

  lemma HexLetterIsHex(d: nat)
    requires d < 16
    ensures HexDigit(HexLetter(d))
  {
  }

  /** Every text can be written. */
  lemma {:induction false} EscapedIsBody(text: string)
    ensures StringBody(Escaped(text))
    decreases |text|
  {
    if text != "" {
      EscapedIsBody(text[1..]);
      CharThenBody(text[0], Escaped(text[1..]));
    }
  }

  lemma CharThenBody(c: char, rest: string)
    requires StringBody(rest)
    ensures StringBody(EscapedChar(c) + rest)
  {
    var e := EscapedChar(c);
    assert (e + rest)[|e|..] == rest;
    if |e| == 6 {
      HexLetterIsHex(c as int / 16);
      HexLetterIsHex(c as int % 16);
      assert HexDigit('0');
      hide HexDigit;
    }
  }

  /** A letter after a backslash that begins no escape makes the text invalid, whatever follows. */
  lemma BadEscapeRefused(body: string, c: char, rest: string, cap: nat)
    requires StringBody(body) && c !in "bfnrt\\/\"u"
    ensures Run("\"" + body + "\\" + [c] + rest, cap, Fresh) == (Fresh, Inval)
  {
    var js := "\"" + body + "\\" + [c] + rest;
    var q := 1 + |body|;
    assert js[1..q] == body && js[q] == '\\' && js[q + 1] == c;
    assert !EscapeLetter(c) && c != 'u';
    hide EscapeLetter;
    assert BadEscape(js, q);
    StringBad(js, 1);
    hide StringBody;
    hide BadEscape;
    hide ScanString;
    assert js[0] == '\"';
    assert Step(js, cap, Fresh) == Fail(Inval);
  }

  // ----- the end of the text -----

  /** What follows a NUL is not read, unless a string has a backslash right before it. */
  lemma {:induction false} NulEndsPrimitive(js: string, z: nat, p: nat)
    requires p <= z < |js| && js[z] == '\0'
    ensures ScanPrimitive(js, p) == ScanPrimitive(js[..z], p)
    decreases z - p
  {
    if p < z {
      NulEndsPrimitive(js, z, p + 1);
    }
  }

  lemma {:induction false} NulEndsHex(js: string, z: nat, p: nat, n: nat)
    requires p <= z < |js| && js[z] == '\0'
    ensures ScanHex(js, p, n) == ScanHex(js[..z], p, n)
    decreases n
  {
    if n > 0 && p < z {
      NulEndsHex(js, z, p + 1, n - 1);
    }
  }

  lemma {:induction false} NulEndsString(js: string, z: nat, p: nat)
    requires p <= z < |js| && js[z] == '\0' && (z > 0 ==> js[z - 1] != '\\')
    ensures ScanString(js, p) == ScanString(js[..z], p)
    decreases z - p
  {
    var a := js[..z];
    if p < z && js[p] != '\0' && js[p] != '\"' {
      if js[p] == '\\' {
        assert p + 1 < z && a[p + 1] == js[p + 1];
        if IsSimpleEscape(js[p + 1]) {
          NulEndsString(js, z, p + 2);
        } else if js[p + 1] == 'u' {
          NulEndsHex(js, z, p + 2, 4);
          var h := ScanHex(a, p + 2, 4);
          if h.Found? {
            NulEndsString(js, z, h.end);
          }
        }
      } else {
        NulEndsString(js, z, p + 1);
      }
    }
  }

  lemma NulEndsStep(js: string, z: nat, cap: nat, s: State)
    requires InRange(s) && s.pos < z < |js| && js[z] == '\0' && js[z - 1] != '\\' && !AtEnd(js, s.pos)
    ensures Step(js, cap, s) == Step(js[..z], cap, s)
  {
    NulEndsPrimitive(js, z, s.pos);
    NulEndsString(js, z, s.pos + 1);
    hide ScanPrimitive;
    hide ScanString;
    hide LastOpen;
    hide LastOpenContainer;
  }

  /** A NUL ends the text: the call is that on the text before it. */
  lemma {:induction false} NulEnds(js: string, z: nat, cap: nat, s: State)
    requires InRange(s) && s.pos <= z < |js| && js[z] == '\0' && (z > 0 ==> js[z - 1] != '\\')
    ensures Run(js, cap, s) == Run(js[..z], cap, s)
    decreases z - s.pos
  {
    if s.pos < z && !AtEnd(js, s.pos) {
      NulEndsStep(js, z, cap, s);
      hide Step;
      if Step(js[..z], cap, s).Next? {
        NulEnds(js, z, cap, Step(js[..z], cap, s).s);
      }
    }
  }

  /** With a backslash before the NUL it is not: the text before it is unfinished, the whole one invalid. */
  lemma NulAfterBackslash()
    ensures Run("\"\\\0", 1, Fresh).1 == Inval && Run("\"\\", 1, Fresh).1 == Part
  {
    assert ScanString("\"\\\0", 1) == Bad;
    assert Step("\"\\\0", 1, Fresh) == Fail(Inval);
    assert ScanString("\"\\", 2) == Unfinished;
    assert ScanString("\"\\", 1) == Unfinished;
    assert Step("\"\\", 1, Fresh) == Fail(Part);
  }
}
