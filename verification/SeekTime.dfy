/**
  Printing playback times as HH:MM:SS and reading them back out of a request body:
  the extraction of an element's text, the scanning of the numbers, the printing.
 */
module SeekTime {
  import opened Text

  const INT_MAX := 2147483647

  // ----- searching -----

  datatype Found = NotFound | Found(at: nat)

  /** The first place at or after `from` where `what` stands. */
  function Find(s: string, from: nat, what: string): (r: Found)
    requires what != ""
    ensures r.Found? ==> from <= r.at && At(s, r.at, what)
    ensures forall k :: from <= k && (r.NotFound? || k < r.at) ==> !At(s, k, what)
    decreases |s| - from
  {
    if from >= |s| then NotFound
    else if At(s, from, what) then Found(from)
    else Find(s, from + 1, what)
  }

  lemma FindIs(s: string, from: nat, what: string, at: nat)
    requires what != "" && from <= at && At(s, at, what)
    requires forall k :: from <= k < at ==> !At(s, k, what)
    ensures Find(s, from, what) == Found(at)
  {
    var r := Find(s, from, what);
    assert r.Found? && !(r.at < at) && !(at < r.at);
  }

  /** `strstr`: scanning on until the text matches or ends. */
  method StrStr(s: string, from: nat, what: string) returns (r: Found)
    requires what != ""
    ensures r == Find(s, from, what)
  {
    var i := from;
    while i < |s|
      invariant from <= i && Find(s, i, what) == Find(s, from, what)
    {
      if At(s, i, what) {
        return Found(i);
      }
      i := i + 1;
    }
    return NotFound;
  }

  // ----- the text of an element -----

  datatype Element = NoElement | Element(text: string)

  /** Where the opening tag is: as `plain` says, or else with attributes. */
  function TagAt(xml: string, plain: string, tag: string): Found
    requires plain != ""
  {
    if Find(xml, 0, plain).Found? then Find(xml, 0, plain)
    else if Find(xml, 0, "<u:" + tag + " ").Found? then Find(xml, 0, "<u:" + tag + " ")
    else Find(xml, 0, tag + " ")
  }

  /** Just after the `>` of the opening tag. */
  function OpenEnd(xml: string, plain: string, tag: string): Found
    requires plain != ""
  {
    var p := TagAt(xml, plain, tag);
    if p.NotFound? then NotFound
    else
      var gt := Find(xml, p.at, ">");
      if gt.NotFound? then NotFound else Found(gt.at + 1)
  }

  function Opening(xml: string, tag: string): Found {
    var op := OpenEnd(xml, "<u:" + tag + ">", tag);
    if op.Found? then op else OpenEnd(xml, "<" + tag + ">", tag)
  }

  function Closing(xml: string, op: nat, tag: string): Found {
    var q := Find(xml, op, "</u:" + tag);
    if q.Found? then q else Find(xml, op, "</" + tag)
  }

  function XmlText(xml: string, tag: string): Element {
    var op := Opening(xml, tag);
    if op.NotFound? then NoElement
    else
      var q := Closing(xml, op.at, tag);
      if q.NotFound? then NoElement else Element(xml[op.at..q.at])
  }

  method FindOpening(xml: string, tag: string) returns (op: Found)
    ensures op == Opening(xml, tag)
  {
    op := NotFound;
    var pass := 0;
    while pass < 2 && op.NotFound?
      invariant 0 <= pass <= 2
      invariant pass == 0 ==> op.NotFound?
      invariant pass == 1 ==> op == OpenEnd(xml, "<u:" + tag + ">", tag)
      invariant pass == 2 ==> op == Opening(xml, tag)
    {
      var start := if pass == 0 then "<u:" + tag + ">" else "<" + tag + ">";
      var p := StrStr(xml, 0, start);
      if p.NotFound? {
        var pt := StrStr(xml, 0, "<u:" + tag + " ");
        if pt.Found? {
          p := pt;
        } else {
          p := StrStr(xml, 0, tag + " ");
        }
      }
      if p.Found? {
        var gt := StrStr(xml, p.at, ">");
        if gt.Found? {
          op := Found(gt.at + 1);
        }
      }
      pass := pass + 1;
    }
  }

  /** The text of the first element `tag`, cut to the buffer; its length, or -1 if there is none. */
  method XmlGet(xml: string, tag: string, out: array<char>, outMax: nat) returns (len: int)
    requires 0 < outMax <= out.Length
    modifies out
    ensures XmlText(xml, tag).NoElement? ==> len == -1 && out[..] == old(out[..])
    ensures XmlText(xml, tag).Element? ==>
              var t := Take(XmlText(xml, tag).text, outMax - 1);
              len == |t| && out[..len] == t && out[len] == '\0'
  {
    hide Find;
    hide Opening;
    var op := FindOpening(xml, tag);
    if op.NotFound? {
      return -1;
    }
    var q := StrStr(xml, op.at, "</u:" + tag);
    if q.NotFound? {
      q := StrStr(xml, op.at, "</" + tag);
    }
    if q.NotFound? {
      return -1;
    }
    len := q.at - op.at;
    if len >= outMax {
      len := outMax - 1;
    }
    CopyOut(xml, op.at, out, len);
    ghost var text := xml[op.at..q.at];
    assert text[..len] == xml[op.at..op.at + len];
  }

  method CopyOut(xml: string, from: nat, out: array<char>, len: nat)
    requires from + len <= |xml| && len < out.Length
    modifies out
    ensures out[..len] == xml[from..from + len] && out[len] == '\0'
  {
    forall k | 0 <= k < len {
      out[k] := xml[from + k];
    }
    out[len] := '\0';
  }

  // ----- an element that is the only one of its name -----

  function Prefix(u: bool): string { if u then "u:" else "" }

  predicate Attributes(attrs: string) {
    (attrs == "" || attrs[0] == ' ') && '>' !in attrs
  }

  /** An element with its surroundings; opening and closing tag may each have the prefix. */
  datatype Layout = Layout(
    tag: string, pre: string, openU: bool, attrs: string, value: string, closeU: bool, post: string)
  {
    function OpenText(): (r: string)
      ensures |r| == 2 + |Prefix(openU)| + |tag| + |attrs|
    {
      ("<" + Prefix(openU)) + (tag + (attrs + ">"))
    }

    function CloseText(): (r: string)
      ensures |r| == 3 + |Prefix(closeU)| + |tag|
    {
      ("</" + Prefix(closeU)) + (tag + ">")
    }

    function Body(): string {
      pre + (OpenText() + (value + (CloseText() + post)))
    }

    function OpenTag(): nat { |pre| + 1 + |Prefix(openU)| }

    function ValueAt(): nat { OpenTag() + |tag| + |attrs| + 1 }

    function CloseTag(): nat { ValueAt() + |value| + 2 + |Prefix(closeU)| }

    /** The name stands nowhere else in the body. */
    ghost predicate Unique() {
      && tag != "" && '>' !in tag && Attributes(attrs)
      && forall k :: At(Body(), k, tag) ==> k == OpenTag() || k == CloseTag()
    }
  }

  lemma OpenPieces(b: string, p: nat, l: Layout)
    requires At(b, p, l.OpenText())
    ensures var o := p + 1 + |Prefix(l.openU)|;
            && At(b, p, "<" + Prefix(l.openU)) && At(b, o, l.tag)
            && At(b, o + |l.tag|, l.attrs) && At(b, o + |l.tag| + |l.attrs|, ">")
  {
    hide At;
    var o := p + 1 + |Prefix(l.openU)|;
    AtSplit(b, p, "<" + Prefix(l.openU), l.tag + (l.attrs + ">"));
    AtSplit(b, o, l.tag, l.attrs + ">");
    AtSplit(b, o + |l.tag|, l.attrs, ">");
  }

  lemma ClosePieces(b: string, p: nat, l: Layout)
    requires At(b, p, l.CloseText())
    ensures var c := p + 2 + |Prefix(l.closeU)|;
            At(b, p, "</" + Prefix(l.closeU)) && At(b, c, l.tag) && At(b, c + |l.tag|, ">")
  {
    hide At;
    var c := p + 2 + |Prefix(l.closeU)|;
    AtSplit(b, p, "</" + Prefix(l.closeU), l.tag + ">");
    AtSplit(b, c, l.tag, ">");
  }

  lemma BodyPieces(l: Layout)
    ensures var b := l.Body();
            && At(b, |l.pre|, l.OpenText()) && At(b, l.ValueAt(), l.value)
            && At(b, l.ValueAt() + |l.value|, l.CloseText())
  {
    hide At;
    var b := l.Body();
    AtWhole(b);
    AtSplit(b, 0, l.pre, l.OpenText() + (l.value + (l.CloseText() + l.post)));
    AtSplit(b, |l.pre|, l.OpenText(), l.value + (l.CloseText() + l.post));
    AtSplit(b, l.ValueAt(), l.value, l.CloseText() + l.post);
    AtSplit(b, l.ValueAt() + |l.value|, l.CloseText(), l.post);
  }

  /** The pieces of a body, each in its place. */
  lemma Pieces(l: Layout)
    ensures var b := l.Body();
            var v, c := l.ValueAt(), l.CloseTag();
            && At(b, |l.pre|, "<" + Prefix(l.openU)) && At(b, l.OpenTag(), l.tag)
            && At(b, l.OpenTag() + |l.tag|, l.attrs) && At(b, v - 1, ">")
            && At(b, v, l.value) && At(b, v + |l.value|, "</" + Prefix(l.closeU))
            && At(b, c, l.tag) && At(b, c + |l.tag|, ">")
  {
    hide At;
    BodyPieces(l);
    OpenPieces(l.Body(), |l.pre|, l);
    ClosePieces(l.Body(), l.ValueAt() + |l.value|, l);
  }

  lemma AtWhole(b: string)
    ensures At(b, 0, b)
  {
    assert b[0..|b|] == b;
  }

  lemma AtJoin(b: string, p: nat, x: string, y: string)
    requires At(b, p, x) && At(b, p + |x|, y)
    ensures At(b, p, x + y)
  {
    assert b[p..p + |x + y|] == b[p..p + |x|] + b[p + |x|..p + |x| + |y|];
  }

  /** Where the name can stand with something around it. */
  lemma NameStands(l: Layout, x: string, y: string, k: nat)
    requires l.Unique() && At(l.Body(), k, x + (l.tag + y))
    ensures k + |x| == l.OpenTag() || k + |x| == l.CloseTag()
    ensures At(l.Body(), k, x) && At(l.Body(), k + |x| + |l.tag|, y)
  {
    hide At;
    AtSplit(l.Body(), k, x, l.tag + y);
    AtSplit(l.Body(), k + |x|, l.tag, y);
  }

  /** The characters around the opening and the closing tag. */
  lemma Around(l: Layout)
    requires Attributes(l.attrs)
    ensures var b, o, c, n := l.Body(), l.OpenTag(), l.CloseTag(), |l.tag|;
            && 1 <= o && o + n < |b| && 2 <= c && c + n < |b|
            && b[o - 1] == (if l.openU then ':' else '<') && (l.openU ==> o >= 3 && b[o - 3] == '<')
            && b[o + n] == (if l.attrs == "" then '>' else ' ')
            && b[c - 1] == (if l.closeU then ':' else '/') && (l.closeU ==> c >= 4 && b[c - 3] == '/')
            && b[c + n] == '>'
  {
    var b, o, c, n := l.Body(), l.OpenTag(), l.CloseTag(), |l.tag|;
    Pieces(l);
    hide At;
    hide Layout.Body;
    var before, behind := "<" + Prefix(l.openU), "</" + Prefix(l.closeU);
    AtChar(b, |l.pre|, before, 0);
    AtChar(b, |l.pre|, before, |before| - 1);
    AtChar(b, c - |behind|, behind, 1);
    AtChar(b, c - |behind|, behind, |behind| - 1);
    AtChar(b, l.ValueAt() - 1, ">", 0);
    AtChar(b, c + n, ">", 0);
    if l.attrs != "" {
      AtChar(b, o + n, l.attrs, 0);
    }
  }

  lemma CharAt(b: string, p: nat, x: string, i: nat)
    ensures At(b, p, x) && i < |x| ==> b[p + i] == x[i]
  {
    if At(b, p, x) && i < |x| {
      AtChar(b, p, x, i);
    }
  }

  /** The opening tag has the prefix, and `y` follows its name. */
  predicate Prefixed(l: Layout, y: string) {
    l.openU && ((y == ">") <==> (l.attrs == ""))
  }

  lemma PrefixedIsOpen(l: Layout, y: string, k: nat)
    requires l.Unique() && (y == ">" || y == " ") && At(l.Body(), k, "<u:" + (l.tag + y))
    ensures Prefixed(l, y) && k + 3 == l.OpenTag()
  {
    Around(l);
    NameStands(l, "<u:", y, k);
    AtChar(l.Body(), k, "<u:", 0);
    AtChar(l.Body(), k, "<u:", 2);
    AtChar(l.Body(), k + 3 + |l.tag|, y, 0);
    hide Layout.Body;
    hide Layout.Unique;
    hide At;
  }

  lemma PrefixedStands(l: Layout, y: string)
    requires l.Unique() && (y == ">" || y == " ") && Prefixed(l, y)
    ensures l.OpenTag() >= 3 && At(l.Body(), l.OpenTag() - 3, "<u:" + (l.tag + y))
  {
    var b, o := l.Body(), l.OpenTag();
    Around(l);
    Pieces(l);
    AtOne(b, o + |l.tag|, y);
    hide At;
    hide Layout.Body;
    hide Layout.Unique;
    assert "<" + Prefix(l.openU) == "<u:";
    AtJoin(b, o, l.tag, y);
    AtJoin(b, o - 3, "<u:", l.tag + y);
  }

  lemma AtOne(b: string, p: nat, y: string)
    requires |y| == 1 && p < |b| && b[p] == y[0]
    ensures At(b, p, y)
  {
  }

  /** The prefixed opening tag is found exactly if the tag has the prefix and what follows its name. */
  lemma FindPrefixed(l: Layout, y: string)
    requires l.Unique() && (y == ">" || y == " ")
    ensures Find(l.Body(), 0, "<u:" + (l.tag + y)) ==
              if Prefixed(l, y) then Found(l.OpenTag() - 3) else NotFound
  {
    hide Layout.Body;
    hide Layout.Unique;
    hide Prefixed;
    hide At;
    var b := l.Body();
    var what := "<u:" + (l.tag + y);
    forall k: nat | At(b, k, what)
      ensures Prefixed(l, y) && k + 3 == l.OpenTag()
    {
      PrefixedIsOpen(l, y, k);
    }
    if Prefixed(l, y) {
      PrefixedStands(l, y);
      FindIs(b, 0, what, l.OpenTag() - 3);
    }
  }

  /** The opening tag has neither prefix nor attributes. */
  predicate Plain(l: Layout) {
    !l.openU && l.attrs == ""
  }

  lemma PlainIsOpen(l: Layout, k: nat)
    requires l.Unique() && At(l.Body(), k, "<" + (l.tag + ">"))
    ensures Plain(l) && k + 1 == l.OpenTag()
  {
    Around(l);
    NameStands(l, "<", ">", k);
    AtChar(l.Body(), k, "<", 0);
    AtChar(l.Body(), k + 1 + |l.tag|, ">", 0);
    hide Layout.Body;
    hide Layout.Unique;
    hide At;
  }

  lemma PlainStands(l: Layout)
    requires l.Unique() && Plain(l)
    ensures l.OpenTag() >= 1 && At(l.Body(), l.OpenTag() - 1, "<" + (l.tag + ">"))
  {
    var b, o := l.Body(), l.OpenTag();
    Around(l);
    Pieces(l);
    hide At;
    hide Layout.Body;
    hide Layout.Unique;
    AtJoin(b, o, l.tag, ">");
    AtJoin(b, o - 1, "<", l.tag + ">");
  }

  /** Without the prefix, the tag is found if it has none. */
  lemma FindPlain(l: Layout)
    requires l.Unique()
    ensures Find(l.Body(), 0, "<" + (l.tag + ">")) == if Plain(l) then Found(l.OpenTag() - 1) else NotFound
  {
    hide Layout.Body;
    hide Layout.Unique;
    hide Plain;
    hide At;
    var b := l.Body();
    var what := "<" + (l.tag + ">");
    forall k: nat | At(b, k, what)
      ensures Plain(l) && k + 1 == l.OpenTag()
    {
      PlainIsOpen(l, k);
    }
    if Plain(l) {
      PlainStands(l);
      FindIs(b, 0, what, l.OpenTag() - 1);
    }
  }

  lemma SpacedIsOpen(l: Layout, k: nat)
    requires l.Unique() && At(l.Body(), k, l.tag + " ")
    ensures l.attrs != "" && k == l.OpenTag()
  {
    assert "" + (l.tag + " ") == l.tag + " ";
    Around(l);
    NameStands(l, "", " ", k);
    AtChar(l.Body(), k + |l.tag|, " ", 0);
    hide Layout.Body;
    hide Layout.Unique;
    hide At;
  }

  lemma SpacedStands(l: Layout)
    requires l.Unique() && l.attrs != ""
    ensures At(l.Body(), l.OpenTag(), l.tag + " ")
  {
    var b, o := l.Body(), l.OpenTag();
    Around(l);
    Pieces(l);
    AtOne(b, o + |l.tag|, " ");
    hide At;
    hide Layout.Body;
    hide Layout.Unique;
    AtJoin(b, o, l.tag, " ");
  }

  /** The bare name and a space are found where attributes follow. */
  lemma FindSpaced(l: Layout)
    requires l.Unique()
    ensures Find(l.Body(), 0, l.tag + " ") == if l.attrs != "" then Found(l.OpenTag()) else NotFound
  {
    hide Layout.Body;
    hide Layout.Unique;
    hide At;
    var b := l.Body();
    forall k: nat | At(b, k, l.tag + " ")
      ensures l.attrs != "" && k == l.OpenTag()
    {
      SpacedIsOpen(l, k);
    }
    if l.attrs != "" {
      SpacedStands(l);
      FindIs(b, 0, l.tag + " ", l.OpenTag());
    }
  }

  /** No `>` stands inside the opening tag. */
  lemma InsideOpenTag(l: Layout, k: nat)
    requires l.Unique() && |l.pre| <= k < l.ValueAt() - 1
    ensures !At(l.Body(), k, ">")
  {
    var b, o, n := l.Body(), l.OpenTag(), |l.tag|;
    Pieces(l);
    CharAt(b, k, ">", 0);
    hide At;
    hide Layout.Body;
    if k < o {
      AtChar(b, |l.pre|, "<" + Prefix(l.openU), k - |l.pre|);
    } else if k < o + n {
      AtChar(b, o, l.tag, k - o);
    } else {
      AtChar(b, o + n, l.attrs, k - o - n);
    }
  }

  /** The first `>` from the opening tag on is its own. */
  lemma FindOpenEnd(l: Layout, from: nat)
    requires l.Unique() && |l.pre| <= from <= l.OpenTag()
    ensures Find(l.Body(), from, ">") == Found(l.ValueAt() - 1)
  {
    Pieces(l);
    hide At;
    hide Layout.Body;
    hide Layout.Unique;
    forall k | from <= k < l.ValueAt() - 1
      ensures !At(l.Body(), k, ">")
    {
      InsideOpenTag(l, k);
    }
    FindIs(l.Body(), from, ">", l.ValueAt() - 1);
  }

  lemma OpeningIs(l: Layout)
    requires l.Unique()
    ensures Opening(l.Body(), l.tag) == Found(l.ValueAt())
  {
    hide Find;
    assert "<u:" + l.tag + ">" == "<u:" + (l.tag + ">");
    assert "<u:" + l.tag + " " == "<u:" + (l.tag + " ");
    assert "<" + l.tag + ">" == "<" + (l.tag + ">");
    FindPrefixed(l, ">");
    FindPrefixed(l, " ");
    FindSpaced(l);
    FindPlain(l);
    FindOpenEnd(l, |l.pre|);
    FindOpenEnd(l, l.OpenTag());
  }

  /** From the value on, the closing tag is found, with the prefix it has. */
  lemma ClosingIs(l: Layout)
    requires l.Unique()
    ensures Closing(l.Body(), l.ValueAt(), l.tag) == Found(l.ValueAt() + |l.value|)
  {
    var b, v, c := l.Body(), l.ValueAt(), l.CloseTag();
    Around(l);
    Pieces(l);
    FindClose(l, "</u:", l.closeU);
    FindClose(l, "</", !l.closeU);
    assert "</u:" + (l.tag + "") == "</u:" + l.tag;
    assert "</" + (l.tag + "") == "</" + l.tag;
  }

  /** `x` is a beginning of a closing tag, and `here` says whether it is that of this one. */
  predicate Closer(l: Layout, x: string, here: bool) {
    if x == "</u:" then here == l.closeU else x == "</" && here == !l.closeU
  }

  lemma CloserIsClose(l: Layout, x: string, here: bool, k: nat)
    requires l.Unique() && Closer(l, x, here) && l.ValueAt() <= k && At(l.Body(), k, x + (l.tag + ""))
    ensures here && k == l.ValueAt() + |l.value|
  {
    Around(l);
    NameStands(l, x, "", k);
    AtChar(l.Body(), k, x, |x| - 1);
    hide Layout.Body;
    hide Layout.Unique;
    hide At;
  }

  lemma CloserStands(l: Layout, x: string)
    requires l.Unique() && Closer(l, x, true)
    ensures At(l.Body(), l.ValueAt() + |l.value|, x + (l.tag + ""))
  {
    var b := l.Body();
    Pieces(l);
    hide At;
    hide Layout.Body;
    hide Layout.Unique;
    assert x == "</" + Prefix(l.closeU);
    assert l.tag + "" == l.tag;
    AtJoin(b, l.ValueAt() + |l.value|, x, l.tag);
  }

  lemma FindClose(l: Layout, x: string, here: bool)
    requires l.Unique() && Closer(l, x, here)
    ensures Find(l.Body(), l.ValueAt(), x + (l.tag + "")) ==
              if here then Found(l.ValueAt() + |l.value|) else NotFound
  {
    var b, v := l.Body(), l.ValueAt();
    var what := x + (l.tag + "");
    assert what != "";
    hide Layout.Body;
    hide Layout.Unique;
    hide Closer;
    hide At;
    forall k | v <= k && At(b, k, what)
      ensures here && k == v + |l.value|
    {
      CloserIsClose(l, x, here, k);
    }
    if here {
      CloserStands(l, x);
      FindIs(b, v, what, v + |l.value|);
    }
  }

  /** The only element of its name yields its text, in any of the forms of its tags. */
  lemma XmlTextOfUnique(l: Layout)
    requires l.Unique()
    ensures XmlText(l.Body(), l.tag) == Element(l.value)
  {
    hide Find;
    OpeningIs(l);
    ClosingIs(l);
    Pieces(l);
  }

  // ----- numbers -----

  datatype Scan = NoNumber | Number(value: int, next: nat)

  predicate IsWhite(c: char) {
    c == ' ' || ('\t' <= c <= '\r')
  }

  function SkipWhite(s: string, p: nat): nat
    decreases |s| - p
  {
    if p < |s| && IsWhite(s[p]) then SkipWhite(s, p + 1) else p
  }

  /** The digits from `p` on, and where they end. */
  function ScanDigits(s: string, p: nat, acc: nat): (r: (nat, nat))
    decreases |s| - p
  {
    if p < |s| && IsDigit(s[p]) then ScanDigits(s, p + 1, acc * 10 + DigitValue(s[p])) else (acc, p)
  }

  /** `%d`: white space, a sign, and at least one digit. */
  function ScanInt(s: string, p: nat): Scan {
    var q := SkipWhite(s, p);
    var signed := q < |s| && (s[q] == '-' || s[q] == '+');
    var d := if signed then q + 1 else q;
    if d < |s| && IsDigit(s[d]) then
      var r := ScanDigits(s, d, 0);
      var n: int := r.0;
      Number(if s[q] == '-' then -n else n, r.1)
    else NoNumber
  }

  /** A number after a colon; 0 if there is none, or if the one before was missing. */
  function ScanNext(s: string, before: Scan): Scan {
    if before.Number? && before.next < |s| && s[before.next] == ':' then ScanInt(s, before.next + 1) else NoNumber
  }

  function ValueOf(n: Scan): int { if n.Number? then n.value else 0 }

  /** Hours, minutes and seconds, as far as they are there. */
  function ParseHms(s: string): int {
    var h := ScanInt(s, 0);
    var m := ScanNext(s, h);
    var sec := ScanNext(s, m);
    ValueOf(h) * 3600 + ValueOf(m) * 60 + ValueOf(sec)
  }

  /** The seconds a seek request asks for; -1 without a target. */
  function SeekTarget(body: string): int {
    match XmlText(body, "Target")
    case NoElement => -1
    case Element(t) => ParseHms(Take(t, 31))
  }

  method ParseSeekTarget(body: string) returns (sec: int)
    ensures sec == SeekTarget(body)
  {
    var buf := new char[32](_ => '\0');
    var len := XmlGet(body, "Target", buf, 32);
    if len < 0 {
      return -1;
    }
    var text := buf[..len];
    var h, m, s := 0, 0, 0;
    var n := ScanInt(text, 0);
    if n.Number? {
      h := n.value;
      n := ScanNext(text, n);
      if n.Number? {
        m := n.value;
        n := ScanNext(text, n);
        if n.Number? {
          s := n.value;
        }
      }
      return h * 3600 + m * 60 + s;
    }
    return 0;
  }

  // ----- printing -----

  function Pad2(n: nat): string { if n < 10 then "0" + Digits(n) else Digits(n) }

  function FmtTime(sec: int): string {
    var t := if sec < 0 then 0 else sec;
    Pad2(t / 3600) + (":" + (Pad2(t / 60 % 60) + (":" + Pad2(t % 60))))
  }

  lemma {:induction false} DigitsScan(s: string, p: nat, n: nat)
    requires At(s, p, Digits(n))
    ensures ScanDigits(s, p, 0) == ScanDigits(s, p + |Digits(n)|, n)
    ensures IsDigit(s[p])
    decreases n
  {
    var r := Digits(n);
    var k := |r| - 1;
    LastDigit(n);
    AtChar(s, p, r, k);
    hide Digits;
    hide ScanDigits;
    hide IsDigit;
    hide DigitValue;
    if n >= 10 {
      AtSplit(s, p, Digits(n / 10), [r[k]]);
      hide At;
      DigitsScan(s, p, n / 10);
    }
    ScanStep(s, p + k, n / 10);
  }

  lemma ScanStep(s: string, p: nat, acc: nat)
    requires p < |s| && IsDigit(s[p])
    ensures ScanDigits(s, p, acc) == ScanDigits(s, p + 1, 10 * acc + DigitValue(s[p]))
  {
  }

  /** A printed number is read back, up to the character after it. */
  lemma PadScan(s: string, p: nat, n: nat)
    requires At(s, p, Pad2(n))
    requires p + |Pad2(n)| < |s| ==> !IsDigit(s[p + |Pad2(n)|])
    ensures ScanInt(s, p) == Number(n, p + |Pad2(n)|)
  {
    if n < 10 {
      AtSplit(s, p, "0", Digits(n));
      AtChar(s, p, "0", 0);
      DigitsScan(s, p + 1, n);
      assert ScanDigits(s, p, 0) == ScanDigits(s, p + 1, 0);
    } else {
      DigitsScan(s, p, n);
    }
    assert ScanDigits(s, p + |Pad2(n)|, n) == (n, p + |Pad2(n)|);
    assert SkipWhite(s, p) == p;
  }

  /** The parts of a time in print, each in its place. */
  lemma TimePieces(h: string, m: string, t: string)
    ensures var s := h + (":" + (m + (":" + t)));
            var p := |h|;
            var q := p + 1 + |m|;
            && At(s, 0, h) && At(s, p + 1, m) && At(s, q + 1, t)
            && |s| == q + 1 + |t| && s[p] == ':' && s[q] == ':'
  {
    hide At;
    var s := h + (":" + (m + (":" + t)));
    var p := |h|;
    var q := p + 1 + |m|;
    AtWhole(s);
    AtSplit(s, 0, h, ":" + (m + (":" + t)));
    AtSplit(s, p, ":", m + (":" + t));
    AtSplit(s, p + 1, m, ":" + t);
    AtSplit(s, q, ":", t);
  }

  lemma SplitSeconds(sec: nat)
    ensures sec == sec / 3600 * 3600 + sec / 60 % 60 * 60 + sec % 60
  {
  }

  /** Reading back a printed time. */
  lemma ParseFmt(sec: nat)
    ensures ParseHms(FmtTime(sec)) == sec
  {
    hide Pad2;
    hide ScanInt;
    hide At;
    var s := FmtTime(sec);
    var h, m, t := sec / 3600, sec / 60 % 60, sec % 60;
    var p := |Pad2(h)|;
    var q := p + 1 + |Pad2(m)|;
    TimePieces(Pad2(h), Pad2(m), Pad2(t));
    PadScan(s, 0, h);
    PadScan(s, p + 1, m);
    PadScan(s, q + 1, t);
    SplitSeconds(sec);
  }

  lemma {:induction false} DigitsLength(n: nat, k: nat)
    requires k > 0 && n < Power10(k)
    ensures |Digits(n)| <= k
    decreases k
  {
    if n >= 10 {
      DigitsLength(n / 10, k - 1);
    }
  }

  function Power10(k: nat): nat { if k == 0 then 1 else 10 * Power10(k - 1) }

  /** A printed time fits the buffer of the parser. */
  lemma FmtFits(sec: nat)
    requires sec <= INT_MAX
    ensures |FmtTime(sec)| <= 31
  {
    assert Power10(1) == 10 && Power10(2) == 100 && Power10(3) == 1000;
    assert Power10(4) == 10000 && Power10(5) == 100000 && Power10(6) == 1000000;
    DigitsLength(sec / 3600, 6);
    DigitsLength(sec / 60 % 60, 2);
    DigitsLength(sec % 60, 2);
  }

  /** A time printed into the only Target element of a body is the time that is sought. */
  lemma SeekRoundTrip(l: Layout, sec: nat)
    requires l.tag == "Target" && l.value == FmtTime(sec) && sec <= INT_MAX && l.Unique()
    ensures SeekTarget(l.Body()) == sec
  {
    XmlTextOfUnique(l);
    FmtFits(sec);
    ParseFmt(sec);
  }

  // ----- what a printed time looks like -----

  function TwoDigits(n: nat): string
    requires n < 100
  {
    [(48 + n / 10) as char, (48 + n % 10) as char]
  }

  lemma PadIsTwo(n: nat)
    requires n < 100
    ensures Pad2(n) == TwoDigits(n)
  {
    if n >= 10 {
      assert Digits(n) == Digits(n / 10) + [('0' as int + n % 10) as char];
    }
  }

  /** Hours in at least two digits, minutes and seconds below 60 in two each. */
  lemma FmtShape(sec: int)
    requires sec >= 0
    ensures var h, m, s := sec / 3600, sec / 60 % 60, sec % 60;
            FmtTime(sec) == (if h < 100 then TwoDigits(h) else Digits(h)) + ":" + TwoDigits(m) + ":" + TwoDigits(s)
  {
    var h, m, s := sec / 3600, sec / 60 % 60, sec % 60;
    if h < 100 {
      PadIsTwo(h);
    }
    PadIsTwo(m);
    PadIsTwo(s);
    hide Digits;
    hide Pad2;
    hide TwoDigits;
    assert FmtTime(sec) == Pad2(h) + (":" + (Pad2(m) + (":" + Pad2(s)))) by {
      assert Pad2(0) + (":" + (Pad2(0) + (":" + Pad2(0)))) == Pad2(0) + (":" + (Pad2(0) + (":" + Pad2(0))));
    }
    Joined(Pad2(h), Pad2(m), Pad2(s));
  }

  lemma Joined(a: string, b: string, c: string)
    ensures a + (":" + (b + (":" + c))) == a + ":" + b + ":" + c
  {
  }

  /** Negative times are shown as none. */
  lemma FmtNegative(sec: int)
    requires sec < 0
    ensures FmtTime(sec) == "00:00:00"
  {
    PadIsTwo(0);
    hide Pad2;
  }

  // ----- other bodies and other times -----

  /** Without the name there is no target. */
  lemma NoTarget(body: string)
    requires forall k: nat :: !At(body, k, "Target")
    ensures SeekTarget(body) == -1
  {
    forall k: nat, x: string, y: string
      ensures !At(body, k, x + "Target" + y)
    {
      if At(body, k, x + "Target" + y) {
        AtSplit(body, k, x + "Target", y);
        AtSplit(body, k, x, "Target");
      }
    }
    hide At;
    assert !At(body, 0, "<u:" + "Target" + ">");
    NotFoundWithout(body, "<u:", ">");
    NotFoundWithout(body, "<", ">");
    NotFoundWithout(body, "<u:", " ");
    NotFoundWithout(body, "", " ");
    assert "" + "Target" + " " == "Target" + " ";
  }

  lemma NotFoundWithout(body: string, x: string, y: string)
    requires forall k: nat :: !At(body, k, x + "Target" + y)
    ensures Find(body, 0, x + "Target" + y).NotFound?
  {
    hide At;
    assert x + "Target" + y != "";
  }

  /** A target longer than the buffer is cut to its first 31 characters. */
  lemma LongTarget(l: Layout)
    requires l.tag == "Target" && l.Unique() && |l.value| > 31
    ensures SeekTarget(l.Body()) == ParseHms(l.value[..31])
  {
    XmlTextOfUnique(l);
    hide XmlText;
    hide ParseHms;
  }

  /** A single number is hours, two are hours and minutes. */
  lemma ShortTimes(h: nat, m: nat)
    ensures ParseHms(Digits(h)) == h * 3600
    ensures ParseHms(Digits(h) + (":" + Digits(m))) == h * 3600 + m * 60
  {
    hide *;
    HoursOnly(Digits(h), h);
    TwoParts(Digits(h), Digits(m));
    HoursAndMinutes(Digits(h) + (":" + Digits(m)), h, m);
  }

  lemma TwoParts(a: string, b: string)
    requires b != ""
    ensures var s := a + (":" + b);
            At(s, 0, a) && At(s, |a| + 1, b) && |s| == |a| + 1 + |b| && s[|a|] == ':'
  {
    var s := a + (":" + b);
    AtWhole(s);
    AtSplit(s, 0, a, ":" + b);
    AtSplit(s, |a|, ":", b);
  }

  lemma HoursOnly(s: string, h: nat)
    requires s == Digits(h)
    ensures ParseHms(s) == h * 3600
  {
    AtWhole(s);
    hide At;
    hide Digits;
    NumberScan(s, 0, h);
    hide ScanInt;
  }

  lemma HoursAndMinutes(s: string, h: nat, m: nat)
    requires At(s, 0, Digits(h)) && |Digits(h)| < |s| && s[|Digits(h)|] == ':'
    requires At(s, |Digits(h)| + 1, Digits(m)) && |s| == |Digits(h)| + 1 + |Digits(m)|
    ensures ParseHms(s) == h * 3600 + m * 60
  {
    hide At;
    hide Digits;
    NumberScan(s, 0, h);
    NumberScan(s, |Digits(h)| + 1, m);
    hide ScanInt;
  }

  lemma NumberScan(s: string, p: nat, n: nat)
    requires At(s, p, Digits(n))
    requires p + |Digits(n)| < |s| ==> !IsDigit(s[p + |Digits(n)|])
    ensures ScanInt(s, p) == Number(n, p + |Digits(n)|)
  {
    DigitsScan(s, p, n);
    hide Digits;
    assert ScanDigits(s, p + |Digits(n)|, n) == (n, p + |Digits(n)|);
    assert SkipWhite(s, p) == p;
  }

  /** White space before a number is skipped, and a minus sign counts. */
  lemma SignedTimes(ws: string, h: nat)
    requires forall i :: 0 <= i < |ws| ==> ws[i] in " \t\n\r" || ws[i] == 11 as char || ws[i] == 12 as char
    ensures ParseHms(ws + ("-" + Digits(h))) == -(h * 3600)
    ensures ParseHms(ws + ("+" + Digits(h))) == h * 3600
  {
    SignedHours(ws, "-", h);
    SignedHours(ws, "+", h);
  }

  lemma SignedHours(ws: string, sign: string, h: nat)
    requires sign == "-" || sign == "+"
    requires forall i :: 0 <= i < |ws| ==> ws[i] in " \t\n\r" || ws[i] == 11 as char || ws[i] == 12 as char
    ensures ParseHms(ws + (sign + Digits(h))) == if sign == "-" then -(h * 3600) else h * 3600
  {
    var s := ws + (sign + Digits(h));
    SignedParts(ws, sign, Digits(h));
    SkipAll(s, 0, |ws|);
    DigitsScan(s, |ws| + 1, h);
    hide Digits;
    hide At;
    hide SkipWhite;
    assert ScanDigits(s, |s|, h) == (h, |s|);
  }

  lemma SignedParts(ws: string, sign: string, d: string)
    requires |sign| == 1 && d != ""
    ensures var s := ws + (sign + d);
            At(s, |ws| + 1, d) && s[|ws|] == sign[0] && |s| == |ws| + 1 + |d| && forall i :: 0 <= i < |ws| ==> s[i] == ws[i]
  {
    var s := ws + (sign + d);
    AtWhole(s);
    AtSplit(s, 0, ws, sign + d);
    AtSplit(s, |ws|, sign, d);
  }

  /** After a number only a colon leads on to another. */
  lemma OtherSeparator(h: nat, rest: string)
    requires rest != "" && rest[0] != ':' && !('0' <= rest[0] <= '9')
    ensures ParseHms(Digits(h) + rest) == h * 3600
  {
    var s := Digits(h) + rest;
    AtWhole(s);
    AtSplit(s, 0, Digits(h), rest);
    AtChar(s, |Digits(h)|, rest, 0) by {
      AtSplit(s, 0, Digits(h), rest);
    }
    hide At;
    hide Digits;
    NumberScan(s, 0, h);
    hide ScanInt;
  }

  // ----- the order in which the forms of a tag are tried -----

  predicate FirstAt(s: string, x: string, k: nat) {
    At(s, k, x) && forall j :: 0 <= j < k ==> !At(s, j, x)
  }

  ghost predicate Nowhere(s: string, x: string) {
    forall j: nat :: !At(s, j, x)
  }

  lemma FindFirst(s: string, x: string, k: nat)
    requires x != ""
    ensures FirstAt(s, x, k) ==> Find(s, 0, x) == Found(k)
    ensures Nowhere(s, x) ==> Find(s, 0, x) == NotFound
  {
    if FirstAt(s, x, k) {
      FindIs(s, 0, x, k);
    }
    hide At;
  }

  /**
    The opening tag: the first with the prefix and no attributes; without any the first with the prefix
    and a space after its name; without any the first place of the name and a space, in a tag or not;
    and only then the first without the prefix and attributes. It ends at the next `>`.
   */
  lemma OpeningOrder(xml: string, tag: string, k: nat, gt: nat)
    requires k <= gt && At(xml, gt, ">") && forall j :: k <= j < gt ==> !At(xml, j, ">")
    requires
      || FirstAt(xml, "<u:" + tag + ">", k)
      || (Nowhere(xml, "<u:" + tag + ">") && FirstAt(xml, "<u:" + tag + " ", k))
      || (Nowhere(xml, "<u:" + tag + ">") && Nowhere(xml, "<u:" + tag + " ") && FirstAt(xml, tag + " ", k))
      || (Nowhere(xml, "<u:" + tag + ">") && Nowhere(xml, "<u:" + tag + " ") && Nowhere(xml, tag + " ")
          && FirstAt(xml, "<" + tag + ">", k))
    ensures Opening(xml, tag) == Found(gt + 1)
  {
    FindFirst(xml, "<u:" + tag + ">", k);
    FindFirst(xml, "<u:" + tag + " ", k);
    FindFirst(xml, tag + " ", k);
    FindFirst(xml, "<" + tag + ">", k);
    FindIs(xml, k, ">", gt);
    hide At;
    hide Find;
    hide FirstAt;
    hide Nowhere;
  }

  /** The closing tag: the first with the prefix, wherever it is, and only without any the first without. */
  lemma ClosingOrder(xml: string, op: nat, tag: string, k: nat)
    requires op <= k
    requires
      || (At(xml, k, "</u:" + tag) && forall j :: op <= j < k ==> !At(xml, j, "</u:" + tag))
      || ((forall j :: op <= j ==> !At(xml, j, "</u:" + tag))
          && At(xml, k, "</" + tag) && forall j :: op <= j < k ==> !At(xml, j, "</" + tag))
    ensures Closing(xml, op, tag) == Found(k)
  {
    if At(xml, k, "</u:" + tag) && forall j :: op <= j < k ==> !At(xml, j, "</u:" + tag) {
      FindIs(xml, op, "</u:" + tag, k);
    } else {
      FindIs(xml, op, "</" + tag, k);
    }
    hide At;
  }

  /** Without a closing tag there is no text, whatever the opening one. */
  lemma NeverClosed(xml: string, tag: string)
    requires Nowhere(xml, "</u:" + tag) && Nowhere(xml, "</" + tag)
    ensures XmlText(xml, tag) == NoElement
  {
    hide At;
  }

  lemma {:induction false} SkipAll(s: string, p: nat, q: nat)
    requires p <= q < |s| && !IsWhite(s[q])
    requires forall i :: p <= i < q ==> IsWhite(s[i])
    ensures SkipWhite(s, p) == q
    decreases q - p
  {
    if p < q {
      SkipAll(s, p + 1, q);
    }
  }
}
