/**
  Tokenizing undoes printing. A document is printed with any white space between
  its lexemes; tokenizing the text gives exactly the pre-order flattening of the
  document, with the type, span and number of children of every node.
 */
module JsmnRoundTrip {
  import opened JsmnGrammar
  import opened JsmnSpec
  import opened Text
  import opened JsmnCount

  // ----- documents -----

  /** Strings hold the text between the quotes, escapes as written. */
  datatype Value =
    | Prim(text: string)
    | Str(body: string)
    | Arr(ws: string, entries: Entries)
    | Obj(ws: string, entries: Entries)

  /** What a comma separates: an element of an array, or a pair of an object. */
  datatype Entry = Elem(v: Value) | Pair(key: string, colonBefore: string, colonAfter: string, v: Value)

  datatype Entries = NoEntries | Entries(before: string, e: Entry, after: string, rest: Entries)

  function Comma(first: bool): string { if first then "" else "," }

  function Quoted(body: string): string { "\"" + (body + "\"") }

  function Render(v: Value): string {
    match v
    case Prim(text) => text
    case Str(body) => Quoted(body)
    case Arr(ws, entries) => "[" + (ws + (RenderEntries(entries, true) + "]"))
    case Obj(ws, entries) => "{" + (ws + (RenderEntries(entries, true) + "}"))
  }

  function RenderEntry(e: Entry): string {
    match e
    case Elem(v) => Render(v)
    case Pair(key, colonBefore, colonAfter, v) => Quoted(key) + (colonBefore + (":" + (colonAfter + Render(v))))
  }

  function RenderEntries(entries: Entries, first: bool): string {
    match entries
    case NoEntries => ""
    case Entries(before, e, after, rest) =>
      Comma(first) + (before + (RenderEntry(e) + (after + RenderEntries(rest, false))))
  }

  // ----- well-formed documents -----

  predicate Spaces(ws: string) {
    forall i :: 0 <= i < |ws| ==> White(ws[i])
  }

  /** Numbers, `true`, `false`, `null`, and everything else written without quotes. */
  predicate PrimText(text: string) {
    && text != "" && text[0] !in "{[\""
    && forall i :: 0 <= i < |text| ==> Visible(text[i]) && !Separator(text[i])
  }

  predicate Valid(v: Value) {
    match v
    case Prim(text) => PrimText(text)
    case Str(body) => StringBody(body)
    case Arr(ws, entries) => Spaces(ws) && ValidEntries(entries, false)
    case Obj(ws, entries) => Spaces(ws) && ValidEntries(entries, true)
  }

  predicate ValidEntry(e: Entry, pair: bool) {
    match e
    case Elem(v) => !pair && Valid(v)
    case Pair(key, colonBefore, colonAfter, v) =>
      pair && StringBody(key) && Spaces(colonBefore) && Spaces(colonAfter) && Valid(v)
  }

  predicate ValidEntries(entries: Entries, pair: bool) {
    match entries
    case NoEntries => true
    case Entries(before, e, after, rest) =>
      Spaces(before) && ValidEntry(e, pair) && Spaces(after) && ValidEntries(rest, pair)
  }

  // ----- the pre-order flattening -----

  /** Elements of an array, pairs of an object. */
  function Count(entries: Entries): nat {
    match entries
    case NoEntries => 0
    case Entries(_, _, _, rest) => 1 + Count(rest)
  }

  /** Nodes of a document: every value and every key. */
  function Nodes(v: Value): nat {
    match v
    case Prim(_) => 1
    case Str(_) => 1
    case Arr(_, entries) => 1 + NodesEntries(entries)
    case Obj(_, entries) => 1 + NodesEntries(entries)
  }

  function NodesEntry(e: Entry): nat {
    match e
    case Elem(v) => Nodes(v)
    case Pair(_, _, _, v) => 1 + Nodes(v)
  }

  function NodesEntries(entries: Entries): nat {
    match entries
    case NoEntries => 0
    case Entries(_, e, _, rest) => NodesEntry(e) + NodesEntries(rest)
  }

  predicate AllClosed(toks: seq<Token>) {
    forall i :: 0 <= i < |toks| ==> !IsOpen(toks[i])
  }

  /** The tokens of a document whose text begins at offset `p`. */
  function Flat(v: Value, p: nat): (toks: seq<Token>)
    ensures |toks| == Nodes(v) && AllClosed(toks)
  {
    match v
    case Prim(text) => [Token(Primitive, p, p + |text|, 0)]
    case Str(body) => [Token(String, p + 1, p + 1 + |body|, 0)]
    case Arr(ws, entries) =>
      [Token(Array, p, p + |Render(v)|, Count(entries))] + FlatEntries(entries, true, p + 1 + |ws|)
    case Obj(ws, entries) =>
      [Token(Object, p, p + |Render(v)|, Count(entries))] + FlatEntries(entries, true, p + 1 + |ws|)
  }

  /** A pair is its key, with one child, and that child. */
  function FlatEntry(e: Entry, p: nat): (toks: seq<Token>)
    ensures |toks| == NodesEntry(e) && AllClosed(toks)
  {
    match e
    case Elem(v) => Flat(v, p)
    case Pair(key, colonBefore, colonAfter, v) =>
      [Token(String, p + 1, p + 1 + |key|, 1)]
      + Flat(v, p + |Quoted(key)| + |colonBefore| + 1 + |colonAfter|)
  }

  function FlatEntries(entries: Entries, first: bool, p: nat): (toks: seq<Token>)
    ensures |toks| == NodesEntries(entries) && AllClosed(toks)
  {
    match entries
    case NoEntries => []
    case Entries(before, e, after, rest) =>
      var q := p + |Comma(first)| + |before|;
      FlatEntry(e, q) + FlatEntries(rest, false, q + |RenderEntry(e)| + |after|)
  }

  // ----- the text at a position -----

  /** What follows a value ends an unquoted one. */
  predicate Ends(js: string, p: nat) {
    AtEnd(js, p) || IsDelimiter(js[p])
  }

  // ----- single lexemes -----

  lemma {:induction false} RunSpaces(js: string, cap: nat, s: State, ws: string)
    requires InRange(s) && Spaces(ws) && At(js, s.pos, ws)
    ensures Run(js, cap, s) == Run(js, cap, s.(pos := s.pos + |ws|))
    decreases |ws|
  {
    hide Run;
    if ws != "" {
      AtChar(js, s.pos, ws, 0);
      assert ws == [ws[0]] + ws[1..];
      AtSplit(js, s.pos, [ws[0]], ws[1..]);
      RunSpace(js, cap, s);
      RunSpaces(js, cap, s.(pos := s.pos + 1), ws[1..]);
    } else {
      assert s.(pos := s.pos + 0) == s;
    }
  }

  lemma RunSpace(js: string, cap: nat, s: State)
    requires InRange(s) && s.pos < |js| && White(js[s.pos])
    ensures Run(js, cap, s) == Run(js, cap, s.(pos := s.pos + 1))
  {
    Classes(js[s.pos]);
    assert Step(js, cap, s) == Next(s.(pos := s.pos + 1));
  }

  lemma ScanPrimText(js: string, p: nat, text: string)
    requires At(js, p, text) && Ends(js, p + |text|) && PrimText(text)
    ensures ScanPrimitive(js, p) == Found(p + |text|)
  {
    var q := p + |text|;
    assert forall k :: p <= k < q ==> js[k] == js[p..q][k - p] == text[k - p];
    PrimitiveExact(js, p, q);
    if q < |js| {
      Classes(js[q]);
    }
    hide Separator;
    hide IsDelimiter;
    hide ScanPrimitive;
  }

  lemma ScanStringBody(js: string, p: nat, body: string)
    requires StringBody(body) && At(js, p, body + "\"")
    ensures ScanString(js, p) == Found(p + |body|)
  {
    hide StringBody;
    hide ScanString;
    AtSplit(js, p, body, "\"");
    AtChar(js, p + |body|, "\"", 0);
    StringExact(js, p, p + |body|);
  }

  /** The state after a leaf token. */
  function Leaf(s: State, t: Token, next: nat): (s': State)
    requires InRange(s)
    ensures InRange(s')
  {
    State(next, Bump(s.toks, s.super) + [t], s.super)
  }

  lemma StepString(js: string, cap: nat, s: State, body: string)
    requires InRange(s) && StringBody(body) && At(js, s.pos, Quoted(body)) && |s.toks| < cap
    ensures !AtEnd(js, s.pos)
    ensures Step(js, cap, s) ==
              Next(Leaf(s, Token(String, s.pos + 1, s.pos + 1 + |body|, 0), s.pos + |Quoted(body)|))
  {
    AtSplit(js, s.pos, "\"", body + "\"");
    AtChar(js, s.pos, "\"", 0);
    ScanStringBody(js, s.pos + 1, body);
  }

  lemma StepPrimitive(js: string, cap: nat, s: State, text: string)
    requires InRange(s) && PrimText(text) && At(js, s.pos, text) && Ends(js, s.pos + |text|) && |s.toks| < cap
    ensures !AtEnd(js, s.pos)
    ensures Step(js, cap, s) == Next(Leaf(s, Token(Primitive, s.pos, s.pos + |text|, 0), s.pos + |text|))
  {
    AtChar(js, s.pos, text, 0);
    ScanPrimText(js, s.pos, text);
  }

  lemma StepMove(js: string, cap: nat, s: State)
    requires InRange(s) && !AtEnd(js, s.pos) && Step(js, cap, s).Next?
    ensures Run(js, cap, s) == Run(js, cap, Step(js, cap, s).s)
  {
  }

  // ----- the token array while a container is open -----

  /** Token `c` has gained `n` children. */
  function Grown(toks: seq<Token>, c: nat, n: nat): (r: seq<Token>)
    requires c < |toks|
    ensures |r| == |toks|
  {
    toks[c := toks[c].(size := toks[c].size + n)]
  }

  /** Container `c` is the innermost open token. */
  predicate Inside(toks: seq<Token>, c: nat) {
    c < |toks| && LastOpen(toks) == c && IsContainer(toks[c])
  }

  /** The superior token as an entry finds it: the container, or the key of the pair before. */
  predicate SuperOk(s: State, c: nat) {
    InRange(s) && (s.super == c || (s.super > c && !IsContainer(s.toks[s.super])))
  }

  /** Closed tokens after it, and more children, leave it so. */
  lemma StillInside(toks: seq<Token>, c: nat, n: nat, more: seq<Token>)
    requires Inside(toks, c) && AllClosed(more)
    ensures Inside(Grown(toks, c, n) + more, c)
  {
    LastOpenIs(Grown(toks, c, n) + more, c);
  }

  lemma InnermostIsContainer(toks: seq<Token>, c: nat)
    requires Inside(toks, c)
    ensures LastOpenContainer(toks) == c
  {
    LastOpenContainerIs(toks, c);
  }

  lemma BumpOpen(toks: seq<Token>, super: int)
    requires -1 <= super < |toks|
    ensures LastOpen(Bump(toks, super)) == LastOpen(toks)
  {
    LastOpenIs(Bump(toks, super), LastOpen(toks));
  }

  lemma GrownNone(toks: seq<Token>, c: nat)
    requires c < |toks|
    ensures Grown(toks, c, 0) + [] == toks
  {
  }

  lemma GrownTwice(toks: seq<Token>, c: nat, a: seq<Token>, n: nat, b: seq<Token>)
    requires c < |toks|
    ensures Grown(Grown(toks, c, 1) + a, c, n) + b == Grown(toks, c, n + 1) + (a + b)
  {
  }

  // ----- where texts end -----

  lemma SpacesEnd(js: string, p: nat, ws: string)
    requires Spaces(ws) && At(js, p, ws) && Ends(js, p + |ws|)
    ensures Ends(js, p)
  {
    if ws != "" {
      AtChar(js, p, ws, 0);
    }
  }

  lemma EntriesEnd(js: string, p: nat, entries: Entries)
    requires At(js, p, RenderEntries(entries, false)) && Ends(js, p + |RenderEntries(entries, false)|)
    ensures Ends(js, p)
  {
    if entries.Entries? {
      AtChar(js, p, RenderEntries(entries, false), 0);
    }
  }

  lemma RenderNone(first: bool)
    ensures RenderEntries(NoEntries, first) == ""
  {
  }

  lemma RenderFirst(entries: Entries, first: bool)
    requires entries.Entries?
    ensures RenderEntries(entries, first) ==
              Comma(first) + (entries.before + (RenderEntry(entries.e) + (entries.after + RenderEntries(entries.rest, false))))
  {
  }

  /** The parts of the first entry's text, and what follows them. */
  lemma SplitEntries(js: string, p: nat, entries: Entries, first: bool)
    requires entries.Entries? && Spaces(entries.after)
    requires At(js, p, RenderEntries(entries, first)) && Ends(js, p + |RenderEntries(entries, first)|)
    ensures At(js, p, Comma(first))
    ensures var q := p + |Comma(first)| + |entries.before|;
            var r := q + |RenderEntry(entries.e)|;
            && At(js, p + |Comma(first)|, entries.before) && At(js, q, RenderEntry(entries.e)) && Ends(js, r)
            && At(js, r, entries.after) && At(js, r + |entries.after|, RenderEntries(entries.rest, false))
    ensures |RenderEntries(entries, first)| ==
              |Comma(first)| + |entries.before| + |RenderEntry(entries.e)| + |entries.after| + |RenderEntries(entries.rest, false)|
  {
    hide At;
    hide Ends;
    hide Spaces;
    hide RenderEntry;
    hide RenderEntries;
    var Entries(before, e, after, rest) := entries;
    var q := p + |Comma(first)| + |before|;
    var r := q + |RenderEntry(e)|;
    var tail := RenderEntries(rest, false);
    RenderFirst(entries, first);
    AtSplit(js, p, Comma(first), before + (RenderEntry(e) + (after + tail)));
    AtSplit(js, p + |Comma(first)|, before, RenderEntry(e) + (after + tail));
    AtSplit(js, q, RenderEntry(e), after + tail);
    AtSplit(js, r, after, tail);
    EntriesEnd(js, r + |after|, rest);
    SpacesEnd(js, r, after);
  }

  /** The parts of a container's text. */
  lemma SplitContainer(js: string, p: nat, v: Value, typ: TokenType, ws: string, entries: Entries)
    requires v == (if typ == Object then Obj(ws, entries) else Arr(ws, entries)) && At(js, p, Render(v))
    ensures var body := RenderEntries(entries, true);
            var q := p + 1 + |ws| + |body|;
            && At(js, p, OpenText(typ)) && At(js, p + 1, ws) && At(js, p + 1 + |ws|, body)
            && At(js, q, CloseText(typ)) && Ends(js, q) && |Render(v)| == |ws| + |body| + 2
  {
    hide At;
    hide RenderEntries;
    var body := RenderEntries(entries, true);
    AtSplit(js, p, OpenText(typ), ws + (body + CloseText(typ)));
    AtSplit(js, p + 1, ws, body + CloseText(typ));
    AtSplit(js, p + 1 + |ws|, body, CloseText(typ));
    AtChar(js, p + 1 + |ws| + |body|, CloseText(typ), 0);
  }

  function OpenText(typ: TokenType): string { if typ == Object then "{" else "[" }

  function CloseText(typ: TokenType): string { if typ == Object then "}" else "]" }

  // ----- brackets and separators -----

  /** Before an entry: the comma, if it is not the first. Then the container is superior. */
  lemma RunComma(js: string, cap: nat, s: State, c: nat, first: bool)
    requires Inside(s.toks, c) && SuperOk(s, c) && (first ==> s.super == c) && At(js, s.pos, Comma(first))
    ensures Run(js, cap, s) == Run(js, cap, State(s.pos + |Comma(first)|, s.toks, c))
  {
    hide Run;
    hide LastOpen;
    hide LastOpenContainer;
    if !first {
      AtChar(js, s.pos, ",", 0);
      InnermostIsContainer(s.toks, c);
      StepMove(js, cap, s);
    }
  }

  lemma RunColon(js: string, cap: nat, s: State)
    requires InRange(s) && At(js, s.pos, ":")
    ensures Run(js, cap, s) == Run(js, cap, State(s.pos + 1, s.toks, |s.toks| - 1))
  {
    AtChar(js, s.pos, ":", 0);
    StepMove(js, cap, s);
  }

  lemma RunOpen(js: string, cap: nat, s: State, typ: TokenType) returns (s': State)
    requires InRange(s) && (typ == Array || typ == Object) && |s.toks| < cap && At(js, s.pos, OpenText(typ))
    ensures InRange(s') && Run(js, cap, s) == Run(js, cap, s') && Inside(s'.toks, |s.toks|)
    ensures s' == State(s.pos + 1, Bump(s.toks, s.super) + [Token(typ, s.pos, -1, 0)], |s.toks|)
  {
    AtChar(js, s.pos, OpenText(typ), 0);
    s' := State(s.pos + 1, Bump(s.toks, s.super) + [Token(typ, s.pos, -1, 0)], |s.toks|);
    LastOpenIs(s'.toks, |s.toks|);
    StepMove(js, cap, s);
  }

  /** The closing bracket completes the container's token. */
  lemma RunClose(js: string, cap: nat, s: State, outer: seq<Token>, t: Token, inner: seq<Token>) returns (s': State)
    requires InRange(s) && (t.typ == Array || t.typ == Object) && IsOpen(t) && AllClosed(inner)
    requires s.toks == outer + [t] + inner && At(js, s.pos, CloseText(t.typ))
    ensures InRange(s') && Run(js, cap, s) == Run(js, cap, s')
    ensures s' == State(s.pos + 1, outer + [t.(end := s.pos + 1)] + inner, LastOpen(outer))
  {
    AtChar(js, s.pos, CloseText(t.typ), 0);
    LastOpenIs(s.toks, |outer|);
    assert s.toks[..|outer|] == outer;
    StepMove(js, cap, s);
    s' := State(s.pos + 1, outer + [t.(end := s.pos + 1)] + inner, LastOpen(outer));
    assert s.toks[|outer| := t.(end := s.pos + 1)] == s'.toks;
  }

  /** A key and its colon: the key's token is there, and is superior. */
  lemma RunKey(js: string, cap: nat, s: State, e: Entry) returns (s': State)
    requires InRange(s) && e.Pair? && ValidEntry(e, true) && |s.toks| < cap
    requires At(js, s.pos, RenderEntry(e))
    ensures InRange(s') && Run(js, cap, s) == Run(js, cap, s')
    ensures s'.pos == s.pos + |Quoted(e.key)| + |e.colonBefore| + 1 + |e.colonAfter|
    ensures At(js, s'.pos, Render(e.v)) && s'.pos + |Render(e.v)| == s.pos + |RenderEntry(e)|
    ensures s'.toks == Bump(s.toks, s.super) + [Token(String, s.pos + 1, s.pos + 1 + |e.key|, 0)]
    ensures s'.super == |s.toks|
  {
    hide Run;
    hide At;
    hide Bump;
    hide Spaces;
    hide StringBody;
    hide Valid;
    hide Render;
    hide Step;
    var p := s.pos + |Quoted(e.key)|;
    var q := p + |e.colonBefore|;
    AtSplit(js, s.pos, Quoted(e.key), e.colonBefore + (":" + (e.colonAfter + Render(e.v))));
    AtSplit(js, p, e.colonBefore, ":" + (e.colonAfter + Render(e.v)));
    AtSplit(js, q, ":", e.colonAfter + Render(e.v));
    AtSplit(js, q + 1, e.colonAfter, Render(e.v));
    StepString(js, cap, s, e.key);
    StepMove(js, cap, s);
    var s1 := Leaf(s, Token(String, s.pos + 1, s.pos + 1 + |e.key|, 0), p);
    RunSpaces(js, cap, s1, e.colonBefore);
    RunColon(js, cap, s1.(pos := q));
    s' := State(q + 1, s1.toks, |s.toks|);
    RunSpaces(js, cap, s', e.colonAfter);
    s' := s'.(pos := q + 1 + |e.colonAfter|);
  }

  // ----- tokenizing a document -----

  lemma {:induction false} RunValue(js: string, cap: nat, s: State, v: Value) returns (s': State)
    requires InRange(s) && Valid(v) && At(js, s.pos, Render(v)) && Ends(js, s.pos + |Render(v)|)
    requires |s.toks| + Nodes(v) <= cap
    ensures InRange(s') && Run(js, cap, s) == Run(js, cap, s')
    ensures s'.pos == s.pos + |Render(v)| && s'.toks == Bump(s.toks, s.super) + Flat(v, s.pos)
    ensures s'.super == if v.Prim? || v.Str? then s.super else LastOpen(s.toks)
    decreases v
  {
    match v
    case Prim(text) =>
      StepPrimitive(js, cap, s, text);
      StepMove(js, cap, s);
      s' := Step(js, cap, s).s;
    case Str(body) =>
      StepString(js, cap, s, body);
      StepMove(js, cap, s);
      s' := Step(js, cap, s).s;
    case Arr(ws, entries) =>
      s' := RunContainer(js, cap, s, v, Array, ws, entries);
    case Obj(ws, entries) =>
      s' := RunContainer(js, cap, s, v, Object, ws, entries);
  }

  lemma {:induction false} RunContainer(js: string, cap: nat, s: State, v: Value, typ: TokenType, ws: string, entries: Entries)
    returns (s': State)
    requires v == (if typ == Object then Obj(ws, entries) else Arr(ws, entries)) && (typ == Object || typ == Array)
    requires InRange(s) && Valid(v) && At(js, s.pos, Render(v)) && |s.toks| + Nodes(v) <= cap
    ensures InRange(s') && Run(js, cap, s) == Run(js, cap, s')
    ensures s'.pos == s.pos + |Render(v)| && s'.toks == Bump(s.toks, s.super) + Flat(v, s.pos)
    ensures s'.super == LastOpen(s.toks)
    decreases v, 0
  {
    hide Run;
    hide At;
    hide Bump;
    hide LastOpen;
    hide Inside;
    hide Spaces;
    hide AllClosed;
    hide Render;
    hide RenderEntries;
    hide FlatEntries;
    hide NodesEntries;
    hide ValidEntries;
    var outer, c, p := Bump(s.toks, s.super), |s.toks|, s.pos + 1 + |ws|;
    SplitContainer(js, s.pos, v, typ, ws, entries);
    var s1 := RunOpen(js, cap, s, typ);
    RunSpaces(js, cap, s1, ws);
    var s2 := RunEntries(js, cap, s1.(pos := p), c, entries, true, typ == Object);
    var t := Token(typ, s.pos, -1, Count(entries));
    var inner := FlatEntries(entries, true, p);
    assert Grown(s1.toks, c, Count(entries)) == outer + [t];
    s' := RunClose(js, cap, s2, outer, t, inner);
    BumpOpen(s.toks, s.super);
    assert Flat(v, s.pos) == [t.(end := s2.pos + 1)] + inner;
  }

  lemma {:induction false} RunEntry(js: string, cap: nat, s: State, c: nat, e: Entry, pair: bool) returns (s': State)
    requires InRange(s) && Inside(s.toks, c) && s.super == c && ValidEntry(e, pair)
    requires At(js, s.pos, RenderEntry(e)) && Ends(js, s.pos + |RenderEntry(e)|)
    requires |s.toks| + NodesEntry(e) <= cap
    ensures SuperOk(s', c) && Run(js, cap, s) == Run(js, cap, s')
    ensures s'.pos == s.pos + |RenderEntry(e)|
    ensures s'.toks == Grown(s.toks, c, 1) + FlatEntry(e, s.pos)
    decreases e, 1
  {
    hide Run;
    hide At;
    hide LastOpen;
    assert Bump(s.toks, c) == Grown(s.toks, c, 1);
    match e
    case Elem(v) =>
      s' := RunValue(js, cap, s, v);
    case Pair(key, colonBefore, colonAfter, v) =>
      var s1 := RunKey(js, cap, s, e);
      var k := Token(String, s.pos + 1, s.pos + 1 + |key|, 0);
      StillInside(s.toks, c, 1, [k]);
      s' := RunValue(js, cap, s1, v);
      assert Bump(s1.toks, |s.toks|) == Grown(s.toks, c, 1) + [k.(size := 1)];
      assert s'.toks == Grown(s.toks, c, 1) + ([k.(size := 1)] + Flat(v, s1.pos));
  }

  lemma {:induction false} RunEntries(js: string, cap: nat, s: State, c: nat, entries: Entries, first: bool, pair: bool)
    returns (s': State)
    requires Inside(s.toks, c) && SuperOk(s, c) && (first ==> s.super == c) && ValidEntries(entries, pair)
    requires At(js, s.pos, RenderEntries(entries, first)) && Ends(js, s.pos + |RenderEntries(entries, first)|)
    requires |s.toks| + NodesEntries(entries) <= cap
    ensures InRange(s') && Run(js, cap, s) == Run(js, cap, s')
    ensures s'.pos == s.pos + |RenderEntries(entries, first)|
    ensures s'.toks == Grown(s.toks, c, Count(entries)) + FlatEntries(entries, first, s.pos)
    decreases entries
  {
    hide Run;
    hide At;
    hide LastOpen;
    hide Grown;
    hide Ends;
    hide Spaces;
    hide AllClosed;
    hide Inside;
    hide RenderEntry;
    hide FlatEntry;
    hide NodesEntry;
    hide RenderEntries;
    hide ValidEntry;
    if entries.NoEntries? {
      s' := s;
      GrownNone(s.toks, c);
      RenderNone(first);
      return;
    }
    var Entries(before, e, after, rest) := entries;
    var p := s.pos + |Comma(first)|;
    var q := p + |before|;
    var r := q + |RenderEntry(e)|;
    SplitEntries(js, s.pos, entries, first);
    RunComma(js, cap, s, c, first);
    RunSpaces(js, cap, State(p, s.toks, c), before);
    var s1 := RunEntry(js, cap, State(q, s.toks, c), c, e, pair);
    RunSpaces(js, cap, s1, after);
    StillInside(s.toks, c, 1, FlatEntry(e, q));
    s' := RunEntries(js, cap, s1.(pos := r + |after|), c, rest, false, pair);
    GrownTwice(s.toks, c, FlatEntry(e, q), Count(rest), FlatEntries(rest, false, r + |after|));
  }

  // ----- the round trip -----

  /** A whole text: a document with white space around it. */
  function Document(before: string, v: Value, after: string): string {
    before + (Render(v) + after)
  }

  /** Tokenizing the text of a document gives its flattening, and its number of nodes. */
  lemma RoundTrip(before: string, v: Value, after: string, cap: nat)
    requires Spaces(before) && Valid(v) && Spaces(after) && Nodes(v) <= cap
    ensures var js := Document(before, v, after);
            Run(js, cap, Fresh).1 == Done(Nodes(v)) && Run(js, cap, Fresh).0.toks == Flat(v, |before|)
  {
    var js := Document(before, v, after);
    var p := |before|;
    var q := p + |Render(v)|;
    var s1 := RunText(js, cap, before, v, after);
    LastOpenIs(s1.toks, -1);
  }

  lemma RunText(js: string, cap: nat, before: string, v: Value, after: string) returns (s': State)
    requires js == Document(before, v, after)
    requires Spaces(before) && Valid(v) && Spaces(after) && Nodes(v) <= cap
    ensures InRange(s') && Run(js, cap, Fresh) == Run(js, cap, s')
    ensures s'.pos == |js| && s'.toks == Flat(v, |before|)
  {
    hide Run;
    var p := |before|;
    var q := p + |Render(v)|;
    assert js[0..0 + |js|] == js;
    AtSplit(js, 0, before, Render(v) + after);
    AtSplit(js, p, Render(v), after);
    SpacesEnd(js, q, after);
    RunSpaces(js, cap, Fresh, before);
    s' := RunValue(js, cap, Fresh.(pos := p), v);
    RunSpaces(js, cap, s', after);
    s' := s'.(pos := |js|);
  }

  /** Any text at all, written as a string, is one token between its quotes. */
  lemma EscapedText(text: string, cap: nat)
    requires cap > 0
    ensures var body := Escaped(text);
            Run("\"" + (body + "\""), cap, Fresh).1 == Done(1) &&
            Run("\"" + (body + "\""), cap, Fresh).0.toks == [Token(String, 1, 1 + |body|, 0)]
  {
    var v := Str(Escaped(text));
    EscapedIsBody(text);
    assert Valid(v) && Nodes(v) == 1 && Spaces("");
    assert Flat(v, 0) == [Token(String, 1, 1 + |Escaped(text)|, 0)];
    hide StringBody;
    hide Escaped;
    hide Run;
    hide Flat;
    hide Nodes;
    RoundTrip("", v, "", cap);
    assert Document("", v, "") == Render(v);
  }

  /** An array too small for the document is reported, whatever its size. */
  lemma TooFewTokens(before: string, v: Value, after: string, cap: nat)
    requires Spaces(before) && Valid(v) && Spaces(after) && cap < Nodes(v)
    ensures Run(Document(before, v, after), cap, Fresh).1 == NoMem
  {
    RoundTrip(before, v, after, Nodes(v));
    CountedSizeIsLeast(Document(before, v, after), cap, Nodes(v));
  }
}
